/**
 The board component's transitions (src/components/Board.tsx): the drop
 handler that splices task ids within or between columns, and the handlers
 that add a task or a column. Each is a function from the current board to
 the one handed to `setBoard`. The clock (`Date.now()`) is a parameter.
 */
module BoardView {
  import opened Options
  import opened Seqs
  import opened ViewTypes

  /** The board a component starts with: three empty columns and no tasks. */
  const InitialBoard: Board := Board(
    map[],
    map[
      "column-1" := Column("column-1", "To Do", [], "bg-blue-100"),
      "column-2" := Column("column-2", "In Progress", [], "bg-yellow-100"),
      "column-3" := Column("column-3", "Done", [], "bg-green-100")],
    ["column-1", "column-2", "column-3"])

  /** The colour of a column created by the "Add Column" form. */
  const NewColumnColor: string := "bg-gray-100"

  /** Every column is stored under its own id. */
  ghost predicate KeysMatch(b: Board)
  {
    forall k :: k in b.columns ==> b.columns[k].id == k
  }

  /** The columns are exactly those of `columnOrder`, each listed once and stored under its own id. */
  ghost predicate WellFormed(b: Board)
  {
    && KeysMatch(b)
    && (forall k :: k in b.columns <==> k in b.columnOrder)
    && NoDuplicates(b.columnOrder)
  }

  /** Every id a column lists is a task. */
  ghost predicate ListedAreTasks(b: Board)
  {
    forall k, t :: k in b.columns && t in b.columns[k].taskIds ==> t in b.tasks
  }

  /** A listed task's `status` is the title of the column that lists it. */
  ghost predicate StatusesMatchTitles(b: Board)
  {
    forall k, t :: k in b.columns && t in b.columns[k].taskIds && t in b.tasks ==> b.tasks[t].status == b.columns[k].title
  }

  /** The initial board is well formed, its columns are those of `columnOrder`, and all are empty. */
  lemma InitialBoardWellFormed()
    ensures WellFormed(InitialBoard) && ListedAreTasks(InitialBoard) && StatusesMatchTitles(InitialBoard)
    ensures InitialBoard.columns.Keys == {"column-1", "column-2", "column-3"}
    ensures forall k :: k in InitialBoard.columns ==> InitialBoard.columns[k].taskIds == []
  {
  }

  /** A place in a column: the droppable's id and a position in its list. */
  datatype DraggableLocation = DraggableLocation(droppableId: Id, index: nat)

  /** What a drop reports: the dragged task id, where it started and where (if anywhere) it landed. */
  datatype DropResult = DropResult(draggableId: Id, source: DraggableLocation, destination: Option<DraggableLocation>)

  /** The drop landed somewhere other than where it started. */
  predicate IsMove(r: DropResult)
  {
    r.destination.Some? &&
    !(r.destination.value.droppableId == r.source.droppableId && r.destination.value.index == r.source.index)
  }

  /**
   The two early returns of onDragEnd, read together: a drop is a move
   exactly when it has a destination that is another location than its
   source.
   */
  lemma IsMoveIffRelocated(r: DropResult)
    ensures IsMove(r) <==> r.destination.Some? && r.destination.value != r.source
  {
  }

  /** onDragEnd reads both columns of a move from the map; a missing one would throw. */
  predicate DropTargetsKnown(b: Board, r: DropResult)
  {
    IsMove(r) ==> r.source.droppableId in b.columns && r.destination.value.droppableId in b.columns
  }

  /**
   onDragEnd: nothing happens without a destination or when the drop lands
   where it started. Within one column, the id at the source index is
   spliced out and the dragged id spliced in at the destination index.
   Between columns, the start column loses the id at the source index and
   the finish column gains the dragged id at the destination index. Each
   rewritten column is stored under its own `id`. Tasks and column order
   are never touched, so a task's `status` is not updated by a drag.
   */
  function DragEnd(b: Board, r: DropResult): (nb: Board)
    requires DropTargetsKnown(b, r)
    ensures !IsMove(r) ==> nb == b
    ensures nb.tasks == b.tasks && nb.columnOrder == b.columnOrder
  {
    if !IsMove(r) then b
    else
      var dest := r.destination.value;
      var start := b.columns[r.source.droppableId];
      var finish := b.columns[dest.droppableId];
      if r.source.droppableId == dest.droppableId then
        var newColumn := start.(taskIds := InsertAt(RemoveAt(start.taskIds, r.source.index), dest.index, r.draggableId));
        b.(columns := b.columns[newColumn.id := newColumn])
      else
        var newStart := start.(taskIds := RemoveAt(start.taskIds, r.source.index));
        var newFinish := finish.(taskIds := InsertAt(finish.taskIds, dest.index, r.draggableId));
        b.(columns := b.columns[newStart.id := newStart][newFinish.id := newFinish])
  }

  /**
   A drop within one column replaces only that column, whose list is the
   old one with the source entry removed and the dragged id inserted at the
   destination; its length is kept when the source index is in range, and
   it is a permutation when the dragged id is the one at the source index.
   */
  lemma DragWithinColumn(b: Board, r: DropResult)
    requires KeysMatch(b) && IsMove(r) && DropTargetsKnown(b, r)
    requires r.destination.value.droppableId == r.source.droppableId
    ensures var s := r.source.droppableId;
      var ids := b.columns[s].taskIds;
      var nb := DragEnd(b, r);
      && nb.columns.Keys == b.columns.Keys
      && nb.columns[s] == b.columns[s].(taskIds := InsertAt(RemoveAt(ids, r.source.index), r.destination.value.index, r.draggableId))
      && (forall k :: k in b.columns && k != s ==> nb.columns[k] == b.columns[k])
      && (r.source.index < |ids| ==> |nb.columns[s].taskIds| == |ids|)
      && (r.source.index < |ids| && ids[r.source.index] == r.draggableId ==>
            multiset(nb.columns[s].taskIds) == multiset(ids))
  {
    var s := r.source.droppableId;
    var ids := b.columns[s].taskIds;
    if r.source.index < |ids| && ids[r.source.index] == r.draggableId {
      MoveIsPermutation(ids, r.source.index, r.destination.value.index, r.draggableId);
    }
  }

  /**
   A drop from one column into another: the start column loses the entry at
   the source index (one fewer when that index is in range), the finish
   column gains the dragged id at the destination index (one more), and no
   other column changes. When the dragged id is the one at the source
   index, the two lists together hold the same ids as before.
   */
  lemma DragAcrossColumns(b: Board, r: DropResult)
    requires KeysMatch(b) && IsMove(r) && DropTargetsKnown(b, r)
    requires r.destination.value.droppableId != r.source.droppableId
    ensures var s := r.source.droppableId;
      var f := r.destination.value.droppableId;
      var nb := DragEnd(b, r);
      && nb.columns.Keys == b.columns.Keys
      && nb.columns[s] == b.columns[s].(taskIds := RemoveAt(b.columns[s].taskIds, r.source.index))
      && nb.columns[f] == b.columns[f].(taskIds := InsertAt(b.columns[f].taskIds, r.destination.value.index, r.draggableId))
      && (r.source.index < |b.columns[s].taskIds| ==> |nb.columns[s].taskIds| == |b.columns[s].taskIds| - 1)
      && |nb.columns[f].taskIds| == |b.columns[f].taskIds| + 1
      && (forall k :: k in b.columns && k != s && k != f ==> nb.columns[k] == b.columns[k])
      && (r.source.index < |b.columns[s].taskIds| && b.columns[s].taskIds[r.source.index] == r.draggableId ==>
            multiset(nb.columns[s].taskIds) + multiset(nb.columns[f].taskIds)
            == multiset(b.columns[s].taskIds) + multiset(b.columns[f].taskIds))
  {
    RemoveAtElements(b.columns[r.source.droppableId].taskIds, r.source.index);
    InsertAtElements(b.columns[r.destination.value.droppableId].taskIds, r.destination.value.index, r.draggableId);
  }

  /** The drop that undoes `r`: the same task dragged from where `r` landed back to where it started. */
  function Reverse(r: DropResult): DropResult
    requires r.destination.Some?
  {
    DropResult(r.draggableId, r.destination.value, Some(r.source))
  }

  /** The drop that undoes a move is a move, and undoing it again gives back the original drop. */
  lemma ReverseOfMove(r: DropResult)
    requires IsMove(r)
    ensures IsMove(Reverse(r))
    ensures Reverse(Reverse(r)) == r
  {
  }

  /** The board a drop within one column produces, written as a single map update. */
  lemma DragWithinShape(b: Board, r: DropResult)
    requires IsMove(r) && DropTargetsKnown(b, r)
    requires r.destination.value.droppableId == r.source.droppableId
    requires b.columns[r.source.droppableId].id == r.source.droppableId
    ensures var s := r.source.droppableId;
      var c := b.columns[s];
      DragEnd(b, r) == b.(columns := b.columns[s := c.(taskIds := InsertAt(RemoveAt(c.taskIds, r.source.index), r.destination.value.index, r.draggableId))])
  {
  }

  /** The board a drop between two columns produces, written as two map updates. */
  lemma DragAcrossShape(b: Board, r: DropResult)
    requires IsMove(r) && DropTargetsKnown(b, r)
    requires r.destination.value.droppableId != r.source.droppableId
    requires b.columns[r.source.droppableId].id == r.source.droppableId
    requires b.columns[r.destination.value.droppableId].id == r.destination.value.droppableId
    ensures var s, f := r.source.droppableId, r.destination.value.droppableId;
      var cs, cf := b.columns[s], b.columns[f];
      DragEnd(b, r) == b.(columns := b.columns
        [s := cs.(taskIds := RemoveAt(cs.taskIds, r.source.index))]
        [f := cf.(taskIds := InsertAt(cf.taskIds, r.destination.value.index, r.draggableId))])
  {
  }

  /** Moving the entry at `i` to `j` and then the entry at `j` back to `i` restores the list. */
  lemma SpliceUndone(ids: seq<Id>, i: nat, j: nat)
    requires i < |ids| && j < |ids|
    ensures InsertAt(RemoveAt(InsertAt(RemoveAt(ids, i), j, ids[i]), j), i, ids[i]) == ids
  {
    InsertThenRemove(RemoveAt(ids, i), j, ids[i]);
    RemoveThenReinsert(ids, i);
  }

  /**
   Dragging a task to another place in its column and then back again
   restores the board, when the drag started on that task and landed
   inside the list.
   */
  lemma DragWithinColumnUndone(b: Board, r: DropResult)
    requires IsMove(r) && DropTargetsKnown(b, r)
    requires r.destination.value.droppableId == r.source.droppableId
    requires b.columns[r.source.droppableId].id == r.source.droppableId
    requires r.source.index < |b.columns[r.source.droppableId].taskIds|
    requires b.columns[r.source.droppableId].taskIds[r.source.index] == r.draggableId
    requires r.destination.value.index < |b.columns[r.source.droppableId].taskIds|
    ensures DropTargetsKnown(DragEnd(b, r), Reverse(r))
    ensures DragEnd(DragEnd(b, r), Reverse(r)) == b
  {
    var s := r.source.droppableId;
    var x := r.draggableId;
    var i, j := r.source.index, r.destination.value.index;
    var c := b.columns[s];
    var c1 := c.(taskIds := InsertAt(RemoveAt(c.taskIds, i), j, x));
    var mid := b.(columns := b.columns[s := c1]);
    assert DragEnd(b, r) == mid by {
      DragWithinShape(b, r);
    }
    assert c1.(taskIds := InsertAt(RemoveAt(c1.taskIds, j), i, x)) == c by {
      SpliceUndone(c.taskIds, i, j);
    }
    var back := Reverse(r);
    assert DragEnd(mid, back) == mid.(columns := mid.columns[s := c]) by {
      assert mid.columns[s] == c1;
      DragWithinShape(mid, back);
    }
    assert mid.columns[s := c] == b.columns;
  }

  /**
   Dragging a task into another column and then back to its old place
   restores the board.
   */
  lemma DragAcrossColumnsUndone(b: Board, r: DropResult)
    requires IsMove(r) && DropTargetsKnown(b, r)
    requires r.destination.value.droppableId != r.source.droppableId
    requires b.columns[r.source.droppableId].id == r.source.droppableId
    requires b.columns[r.destination.value.droppableId].id == r.destination.value.droppableId
    requires r.source.index < |b.columns[r.source.droppableId].taskIds|
    requires b.columns[r.source.droppableId].taskIds[r.source.index] == r.draggableId
    requires r.destination.value.index <= |b.columns[r.destination.value.droppableId].taskIds|
    ensures DropTargetsKnown(DragEnd(b, r), Reverse(r))
    ensures DragEnd(DragEnd(b, r), Reverse(r)) == b
  {
    var s, f := r.source.droppableId, r.destination.value.droppableId;
    var x := r.draggableId;
    var i, j := r.source.index, r.destination.value.index;
    var cs, cf := b.columns[s], b.columns[f];
    var cs1 := cs.(taskIds := RemoveAt(cs.taskIds, i));
    var cf1 := cf.(taskIds := InsertAt(cf.taskIds, j, x));
    var mid := b.(columns := b.columns[s := cs1][f := cf1]);
    assert DragEnd(b, r) == mid by {
      DragAcrossShape(b, r);
    }
    var back := Reverse(r);
    assert cf1.(taskIds := RemoveAt(cf1.taskIds, j)) == cf by {
      InsertThenRemove(cf.taskIds, j, x);
    }
    assert cs1.(taskIds := InsertAt(cs1.taskIds, i, x)) == cs by {
      RemoveThenReinsert(cs.taskIds, i);
    }
    assert DragEnd(mid, back) == mid.(columns := mid.columns[f := cf][s := cs]) by {
      assert mid.columns[s] == cs1 && mid.columns[f] == cf1;
      DragAcrossShape(mid, back);
    }
    assert mid.columns[f := cf][s := cs] == b.columns;
  }

  /** A drop keeps the board well formed. */
  lemma DragKeepsWellFormed(b: Board, r: DropResult)
    requires WellFormed(b) && DropTargetsKnown(b, r)
    ensures WellFormed(DragEnd(b, r))
  {
    if IsMove(r) {
      if r.destination.value.droppableId == r.source.droppableId {
        DragWithinColumn(b, r);
      } else {
        DragAcrossColumns(b, r);
      }
    }
  }

  /** A drop of a task that exists keeps every listed id a task. */
  lemma DragKeepsTasksListed(b: Board, r: DropResult)
    requires KeysMatch(b) && ListedAreTasks(b) && DropTargetsKnown(b, r)
    requires IsMove(r) ==> r.draggableId in b.tasks
    ensures ListedAreTasks(DragEnd(b, r))
  {
    if IsMove(r) {
      var nb := DragEnd(b, r);
      var s, f := r.source.droppableId, r.destination.value.droppableId;
      var si, di := r.source.index, r.destination.value.index;
      if f == s {
        DragWithinColumn(b, r);
        RemoveAtElements(b.columns[s].taskIds, si);
        InsertAtElements(RemoveAt(b.columns[s].taskIds, si), di, r.draggableId);
      } else {
        DragAcrossColumns(b, r);
        RemoveAtElements(b.columns[s].taskIds, si);
        InsertAtElements(b.columns[f].taskIds, di, r.draggableId);
      }
      forall k, t | k in nb.columns && t in nb.columns[k].taskIds ensures t in nb.tasks {
        if t != r.draggableId && (k == s || k == f) {
          assert multiset(nb.columns[k].taskIds)[t] > 0;
          assert multiset(b.columns[k].taskIds)[t] > 0;
        }
      }
    }
  }

  /**
   A drop into another column does not touch the dragged task, so when the
   two columns have different titles the task's `status` names the column
   it left, not the one that now lists it.
   */
  lemma DragAcrossLeavesStatus(b: Board, r: DropResult)
    requires KeysMatch(b) && IsMove(r) && DropTargetsKnown(b, r)
    requires r.destination.value.droppableId != r.source.droppableId
    requires r.draggableId in b.tasks
    requires b.tasks[r.draggableId].status == b.columns[r.source.droppableId].title
    requires b.columns[r.source.droppableId].title != b.columns[r.destination.value.droppableId].title
    ensures !StatusesMatchTitles(DragEnd(b, r))
  {
    var f := r.destination.value.droppableId;
    var nb := DragEnd(b, r);
    DragAcrossColumns(b, r);
    var ids := b.columns[f].taskIds;
    assert nb.columns[f].taskIds[Clamp(r.destination.value.index, |ids|)] == r.draggableId;
    assert r.draggableId in nb.columns[f].taskIds;
  }

  /**
   addTask(columnId, task): the task is stored under its id and its id is
   appended at the tail of that column; other columns, the other tasks and
   the column order stay as they were.
   */
  function AddTask(b: Board, columnId: Id, task: Task): (nb: Board)
    requires columnId in b.columns
    ensures nb.tasks.Keys == b.tasks.Keys + {task.id} && nb.tasks[task.id] == task
    ensures forall k :: k in b.tasks && k != task.id ==> nb.tasks[k] == b.tasks[k]
    ensures nb.columns.Keys == b.columns.Keys
    ensures nb.columns[columnId].taskIds == b.columns[columnId].taskIds + [task.id]
    ensures nb.columns[columnId].id == b.columns[columnId].id
    ensures nb.columns[columnId].title == b.columns[columnId].title
    ensures nb.columns[columnId].color == b.columns[columnId].color
    ensures forall k :: k in b.columns && k != columnId ==> nb.columns[k] == b.columns[k]
    ensures nb.columnOrder == b.columnOrder
  {
    var column := b.columns[columnId];
    b.(tasks := b.tasks[task.id := task], columns := b.columns[columnId := column.(taskIds := column.taskIds + [task.id])])
  }

  /** addTask keeps the board well formed and every listed id a task. */
  lemma AddTaskKeepsWellFormed(b: Board, columnId: Id, task: Task)
    requires columnId in b.columns
    ensures WellFormed(b) ==> WellFormed(AddTask(b, columnId, task))
    ensures ListedAreTasks(b) ==> ListedAreTasks(AddTask(b, columnId, task))
  {
    var nb := AddTask(b, columnId, task);
    if ListedAreTasks(b) {
      forall k, t | k in nb.columns && t in nb.columns[k].taskIds ensures t in nb.tasks {
        if k == columnId && t != task.id {
          assert t in b.columns[k].taskIds;
        }
      }
    }
  }

  /**
   Adding a new task to a column titled with the task's status keeps every
   listed task's status equal to its column's title.
   */
  lemma AddTaskKeepsStatuses(b: Board, columnId: Id, task: Task)
    requires columnId in b.columns && b.columns[columnId].title == task.status
    requires ListedAreTasks(b) && StatusesMatchTitles(b) && task.id !in b.tasks
    ensures StatusesMatchTitles(AddTask(b, columnId, task))
  {
    var nb := AddTask(b, columnId, task);
    forall k, t | k in nb.columns && t in nb.columns[k].taskIds && t in nb.tasks
      ensures nb.tasks[t].status == nb.columns[k].title
    {
      if k == columnId {
        if t != task.id {
          assert t in b.columns[k].taskIds;
        }
      }
    }
  }

  /** The character of a decimal digit. */
  function Digit(d: nat): (c: char)
    requires d < 10
    ensures '0' <= c <= '9'
  {
    (('0' as int) + d) as char
  }

  /** The decimal numeral of `n`, as template strings print it. */
  function Decimal(n: nat): (s: string)
    ensures |s| >= 1
    ensures forall i :: 0 <= i < |s| ==> '0' <= s[i] <= '9'
  {
    if n < 10 then [Digit(n)] else Decimal(n / 10) + [Digit(n % 10)]
  }

  /** `column-${Date.now()}`: the id of a column created at time `now`. */
  function ColumnIdAt(now: nat): (id: Id)
    ensures |id| > 7 && id[..7] == "column-"
  {
    "column-" + Decimal(now)
  }

  /** Distinct numbers have distinct numerals. */
  lemma {:induction false} DecimalInjective(n: nat, m: nat)
    requires Decimal(n) == Decimal(m)
    ensures n == m
  {
    if n >= 10 && m >= 10 {
      var dn, dm := Decimal(n), Decimal(m);
      assert Digit(n % 10) == dn[|dn| - 1] == dm[|dm| - 1] == Digit(m % 10);
      assert Decimal(n / 10) == dn[..|dn| - 1] == dm[..|dm| - 1] == Decimal(m / 10);
      DecimalInjective(n / 10, m / 10);
    }
  }

  /** Columns added at different times get different ids. */
  lemma ColumnIdAtInjective(t1: nat, t2: nat)
    requires t1 != t2
    ensures ColumnIdAt(t1) != ColumnIdAt(t2)
  {
    if ColumnIdAt(t1) == ColumnIdAt(t2) {
      assert Decimal(t1) == ColumnIdAt(t1)[7..] == ColumnIdAt(t2)[7..] == Decimal(t2);
      DecimalInjective(t1, t2);
    }
  }

  /**
   addColumn(title): an empty column with the default colour, stored under
   the id made from the clock, whose id is appended to the column order;
   the tasks stay as they were.
   */
  function AddColumn(b: Board, title: string, now: nat): (nb: Board)
    ensures nb.tasks == b.tasks
    ensures nb.columnOrder == b.columnOrder + [ColumnIdAt(now)]
    ensures nb.columns.Keys == b.columns.Keys + {ColumnIdAt(now)}
    ensures nb.columns[ColumnIdAt(now)] == Column(ColumnIdAt(now), title, [], NewColumnColor)
    ensures forall k :: k in b.columns && k != ColumnIdAt(now) ==> nb.columns[k] == b.columns[k]
  {
    var id := ColumnIdAt(now);
    b.(columns := b.columns[id := Column(id, title, [], NewColumnColor)], columnOrder := b.columnOrder + [id])
  }

  /** addColumn at a time whose id no column has keeps the board well formed. */
  lemma AddColumnKeepsWellFormed(b: Board, title: string, now: nat)
    requires WellFormed(b) && ColumnIdAt(now) !in b.columns
    ensures WellFormed(AddColumn(b, title, now))
    ensures ListedAreTasks(b) ==> ListedAreTasks(AddColumn(b, title, now))
  {
    var nb := AddColumn(b, title, now);
    var id := ColumnIdAt(now);
    assert id !in b.columnOrder;
    forall i, j | 0 <= i < j < |nb.columnOrder| ensures nb.columnOrder[i] != nb.columnOrder[j] {
      if j == |b.columnOrder| {
        assert nb.columnOrder[i] == b.columnOrder[i];
      }
    }
  }

  /**
   Two columns added at different times, to a well formed board that has
   neither id, leave it well formed: the clock gives them different ids.
   */
  lemma AddColumnsAtTwoTimes(b: Board, x: string, y: string, t1: nat, t2: nat)
    requires WellFormed(b) && ColumnIdAt(t1) !in b.columns && ColumnIdAt(t2) !in b.columns && t1 != t2
    ensures WellFormed(AddColumn(AddColumn(b, x, t1), y, t2))
  {
    AddColumnKeepsWellFormed(b, x, t1);
    ColumnIdAtInjective(t1, t2);
    AddColumnKeepsWellFormed(AddColumn(b, x, t1), y, t2);
  }

  /**
   `columnOrder.find(id => columns[id].title === title)` can be evaluated
   without reading a missing column: every id up to the first match (or
   every id, when none matches) is a key of `columns`.
   */
  predicate TitlesReadable(order: seq<Id>, columns: map<Id, Column>, title: string)
  {
    forall i :: 0 <= i < |order| ==>
      (forall j :: 0 <= j < i ==> order[j] in columns && columns[order[j]].title != title) ==> order[i] in columns
  }

  /** `columnOrder.find(id => columns[id].title === title)`: the first id in order whose column has that title. */
  function FindByTitle(order: seq<Id>, columns: map<Id, Column>, title: string): (r: Option<Id>)
    requires TitlesReadable(order, columns, title)
    ensures r.None? <==> forall i :: 0 <= i < |order| ==> order[i] in columns && columns[order[i]].title != title
    ensures r.Some? ==> exists i :: (&& 0 <= i < |order| && order[i] == r.value && r.value in columns
      && columns[r.value].title == title
      && forall j :: 0 <= j < i ==> order[j] in columns && columns[order[j]].title != title)
  {
    if order == [] then None
    else
      if columns[order[0]].title == title then
        assert order[0] == order[0];
        Some(order[0])
      else
        assert TitlesReadable(order[1..], columns, title) by {
          forall i | 0 <= i < |order[1..]|
            && (forall j :: 0 <= j < i ==> order[1..][j] in columns && columns[order[1..][j]].title != title)
            ensures order[1..][i] in columns
          {
            assert forall j :: 0 <= j < i + 1 ==> order[j] in columns && columns[order[j]].title != title by {
              forall j | 0 <= j < i + 1 ensures order[j] in columns && columns[order[j]].title != title {
                if j > 0 { assert order[j] == order[1..][j - 1]; }
              }
            }
          }
        }
        var rest := FindByTitle(order[1..], columns, title);
        assert rest.None? ==> forall i :: 0 <= i < |order| ==> order[i] in columns && columns[order[i]].title != title by {
          if rest.None? {
            forall i | 0 <= i < |order| ensures order[i] in columns && columns[order[i]].title != title {
              if i > 0 { assert order[i] == order[1..][i - 1]; }
            }
          }
        }
        assert rest.Some? ==> exists i :: (&& 0 <= i < |order| && order[i] == rest.value && rest.value in columns
          && columns[rest.value].title == title
          && forall j :: 0 <= j < i ==> order[j] in columns && columns[order[j]].title != title) by {
          if rest.Some? {
            var i :| 0 <= i < |order[1..]| && order[1..][i] == rest.value && rest.value in columns
              && columns[rest.value].title == title
              && forall j :: 0 <= j < i ==> order[1..][j] in columns && columns[order[1..][j]].title != title;
            assert order[i + 1] == rest.value;
            forall j | 0 <= j < i + 1 ensures order[j] in columns && columns[order[j]].title != title {
              if j > 0 { assert order[j] == order[1..][j - 1]; }
            }
          }
        }
        rest
  }

  /** The key addTaskToColumn reads: the id found by title, or "" when none matches. */
  function TargetKey(b: Board, title: string): (key: Id)
    requires TitlesReadable(b.columnOrder, b.columns, title)
    ensures (forall i :: 0 <= i < |b.columnOrder| ==> b.columnOrder[i] in b.columns && b.columns[b.columnOrder[i]].title != title)
      ==> key == ""
    ensures (exists i :: 0 <= i < |b.columnOrder| && b.columnOrder[i] in b.columns && b.columns[b.columnOrder[i]].title == title)
      ==> (&& key in b.columns && b.columns[key].title == title
           && exists i :: (&& 0 <= i < |b.columnOrder| && b.columnOrder[i] == key
             && forall j :: 0 <= j < i ==> b.columnOrder[j] in b.columns && b.columns[b.columnOrder[j]].title != title))
  {
    match FindByTitle(b.columnOrder, b.columns, title)
    case Some(id) => id
    case None => ""
  }

  /**
   In a well formed board with a column of the given title, the title
   lookup reads only existing columns and settles on the first such column
   in display order, which is stored under its own id.
   */
  lemma TargetKeyInWellFormed(b: Board, title: string)
    requires WellFormed(b)
    requires exists k :: k in b.columns && b.columns[k].title == title
    ensures TitlesReadable(b.columnOrder, b.columns, title)
    ensures var key := TargetKey(b, title);
      && key in b.columns && b.columns[key].id == key && b.columns[key].title == title
      && exists i :: (&& 0 <= i < |b.columnOrder| && b.columnOrder[i] == key
        && forall j :: 0 <= j < i ==> b.columnOrder[j] in b.columns && b.columns[b.columnOrder[j]].title != title)
  {
    var k :| k in b.columns && b.columns[k].title == title;
    assert k in b.columnOrder;
    var i0 :| 0 <= i0 < |b.columnOrder| && b.columnOrder[i0] == k;
    assert b.columnOrder[i0] in b.columns && b.columns[b.columnOrder[i0]].title == title;
  }

  /**
   addTaskToColumn does not throw: the title lookup reads only existing
   columns, the key it settles on is a column, and that column's id is a
   column too.
   */
  predicate CanAddToColumn(b: Board, task: Task)
  {
    && TitlesReadable(b.columnOrder, b.columns, task.status)
    && TargetKey(b, task.status) in b.columns
    && b.columns[TargetKey(b, task.status)].id in b.columns
  }

  /** addTaskToColumn(task): addTask into the column found by the task's status, read as a column title. */
  function AddTaskToColumn(b: Board, task: Task): (nb: Board)
    requires CanAddToColumn(b, task)
    ensures nb.tasks.Keys == b.tasks.Keys + {task.id} && nb.tasks[task.id] == task
    ensures forall k :: k in b.tasks && k != task.id ==> nb.tasks[k] == b.tasks[k]
    ensures nb.columnOrder == b.columnOrder && nb.columns.Keys == b.columns.Keys
    ensures var id := b.columns[TargetKey(b, task.status)].id;
      && nb.columns[id] == b.columns[id].(taskIds := b.columns[id].taskIds + [task.id])
      && forall k :: k in b.columns && k != id ==> nb.columns[k] == b.columns[k]
  {
    AddTask(b, b.columns[TargetKey(b, task.status)].id, task)
  }

  /**
   In a well formed board, addTaskToColumn appends the task id to the first
   column in display order whose title is the task's status, found at
   position `i` of the order; every column before it has another title, no
   other column changes, and the other tasks are kept.
   */
  lemma AddTaskToColumnFirstMatch(b: Board, task: Task) returns (i: nat)
    requires WellFormed(b)
    requires exists k :: k in b.columns && b.columns[k].title == task.status
    ensures CanAddToColumn(b, task)
    ensures i < |b.columnOrder| && b.columns[b.columnOrder[i]].title == task.status
    ensures forall j :: 0 <= j < i ==> b.columns[b.columnOrder[j]].title != task.status
    ensures AddTaskToColumn(b, task).columns[b.columnOrder[i]]
      == b.columns[b.columnOrder[i]].(taskIds := b.columns[b.columnOrder[i]].taskIds + [task.id])
    ensures forall k :: k in b.columns && k != b.columnOrder[i] ==> AddTaskToColumn(b, task).columns[k] == b.columns[k]
    ensures forall k :: k in b.tasks && k != task.id ==> AddTaskToColumn(b, task).tasks[k] == b.tasks[k]
  {
    TargetKeyInWellFormed(b, task.status);
    var key := TargetKey(b, task.status);
    i :| 0 <= i < |b.columnOrder| && b.columnOrder[i] == key
      && (forall j :: 0 <= j < i ==> b.columnOrder[j] in b.columns && b.columns[b.columnOrder[j]].title != task.status);
  }

  /**
   In a well formed board where some column has the new task's status as
   its title, addTaskToColumn keeps the board well formed, every listed id
   a task, and every listed task's status its column's title.
   */
  lemma AddTaskToColumnKeepsInvariants(b: Board, task: Task)
    requires WellFormed(b) && ListedAreTasks(b) && StatusesMatchTitles(b) && task.id !in b.tasks
    requires exists k :: k in b.columns && b.columns[k].title == task.status
    ensures CanAddToColumn(b, task)
    ensures WellFormed(AddTaskToColumn(b, task))
    ensures ListedAreTasks(AddTaskToColumn(b, task))
    ensures StatusesMatchTitles(AddTaskToColumn(b, task))
  {
    TargetKeyInWellFormed(b, task.status);
    var key := TargetKey(b, task.status);
    assert b.columns[key].id == key && b.columns[key].title == task.status;
    AddTaskKeepsWellFormed(b, key, task);
    AddTaskKeepsStatuses(b, key, task);
  }
}
