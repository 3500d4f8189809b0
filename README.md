# Kanban board: a Dafny model

This project models the state transitions of a kanban task board. Tasks sit in ordered columns. A user adds, edits, moves and deletes tasks, and adds and deletes columns. The repository holds two independent boards, and both are modelled:

- **The board store** (`src/store/board.ts`) keeps a task map and an ordered list of columns. It has six actions: add, update, delete and move a task, and add and delete a column.
  - Each action is modelled as a Dafny function from the old board to the new one, in module `Store`.
  - The store object is a class whose methods replace its state with that function's result (`StoreInstance.BoardStore`).
  - A consistency invariant is proved to be preserved by every action that can preserve it (`StoreProperties`). Four parts make it up: column ids are distinct; no column lists an id twice; every listed id is a task whose `status` is that column's id; every task is listed.
- **The board component** (`src/components/Board.tsx`) keeps a task map, a column map and a column order.
  - The drop handler splices task ids within a column or between columns. It is modelled as a function (`BoardView.DragEnd`) and as a step-by-step method on the component class (`BoardComponent.Component.OnDragEnd`).
  - Adding a task, adding a column and adding a task by its status title are modelled the same way.
- **The task details page** (`src/components/TaskDetails.tsx`) edits one task. Its handlers produce the board that saving or deleting writes back (`TaskDetails`, `TaskDetailsPage.Page`).

Generic sequence operations are in `Seqs`: JavaScript's `filter` and the two `splice` forms the source uses. The clock and the id generator are parameters.

A status edit is evidently meant to move the task's id to the column named by the new `status`, as `moveTask` does. The code of `updateTask` does not: it only merges the fields into the task entry and never touches the columns. `Store.UpdateTask` models the code. `StoreProperties.UpdateStatusBreaksConsistency` proves that a status change therefore breaks the consistency invariant.

## Model

| member | source | states |
|---|---|---|
| Seqs.Filter | src/store/board.ts:66 | `filter` keeps exactly the elements that pass the test and is no longer than its input |
| Seqs.FilterIsSubsequence | src/store/board.ts:111 | the elements `filter` keeps stay in their original order (a subsequence) |
| Seqs.FilterMultiset | src/store/board.ts:66 | `filter` keeps every passing element as often as it occurs and drops the rest |
| Seqs.FilterAppend | src/store/board.ts:66 | filtering a concatenation is concatenating the filtered parts |
| Seqs.FilterIdempotent | src/store/board.ts:66 | filtering twice with the same test is filtering once |
| Seqs.FilterKeepsNoDuplicates | src/store/board.ts:111 | filtering a list without duplicates gives a list without duplicates |
| Seqs.Without | src/store/board.ts:66 | `filter(id => id !== x)` removes every occurrence of x, keeps every other element with its count, and is the identity when x is absent |
| Seqs.WithoutAbsent | src/store/board.ts:66 | filtering x out of a list that has no x leaves it unchanged |
| Seqs.WithoutAppended | src/store/board.ts:82-88 | filtering x out after appending x is the same as filtering it out before |
| Seqs.RemoveAt | src/components/Board.tsx:53 | `splice(i, 1)` makes the list one shorter when i is in range, and changes nothing when i is past the end |
| Seqs.RemoveAtElements | src/components/Board.tsx:53 | after `splice(i, 1)` the elements before i stay in place, the later ones move down one, and the multiset loses exactly the element at i |
| Seqs.InsertAt | src/components/Board.tsx:54 | `splice(i, 0, x)` makes the list one longer with x at i, clamped to the length |
| Seqs.InsertAtElements | src/components/Board.tsx:54 | after `splice(i, 0, x)` the elements before the insertion point stay in place, the later ones move up one, and the multiset gains exactly x |
| Seqs.InsertThenRemove | src/components/Board.tsx:52-54 | inserting at i and then removing at i gives back the list |
| Seqs.RemoveThenReinsert | src/components/Board.tsx:52-54 | removing the element at i and inserting it again at i gives back the list |
| Seqs.MoveIsPermutation | src/components/Board.tsx:52-54 | removing the element at i and inserting that same element anywhere keeps the length and the multiset |
| Store.FindColumn | src/store/board.ts:39 | `find` on column ids: found exactly when some column has that id, and the result is such a column |
| Store.Entry | src/store/board.ts:56 | `state.tasks[taskId]` is the stored task for a known id and a record with no field present for an unknown one |
| Store.Override | src/store/board.ts:56 | one field of an object spread is one of the two values, present exactly when either is, and a present update wins |
| Store.Spread | src/store/board.ts:56 | `{ ...base, ...updates }`: each field present in the updates is taken from them, each absent one from the base |
| Store.SpreadNothing | src/store/board.ts:56 | spreading a record with no fields over a task leaves it unchanged |
| Store.SpreadOverMissing | src/store/board.ts:56 | spreading updates over the entry of an unknown id gives exactly the updates |
| Store.SpreadTwice | src/store/board.ts:56 | two successive spreads equal one spread of the second updates over the first |
| Store.SpreadIdempotent | src/store/board.ts:56 | spreading the same updates twice equals spreading them once |
| Store.AddTask | src/store/board.ts:28-50 | unknown column: board unchanged; otherwise a complete task with status columnId and time `now` is stored under the new id, which goes to the tail of that column only; ids and titles of all columns and all other tasks are kept |
| Store.UpdateTask | src/store/board.ts:52-58 | each field present in `updates` overrides the old entry's field and each absent one keeps it (an unknown id starts from no fields); columns and other tasks are untouched |
| Store.DeleteTask | src/store/board.ts:59-69 | the task key is gone; every column keeps its id and title and loses every occurrence of the id, keeping every other id with its count |
| Store.MoveColumns | src/store/board.ts:78-92 | the source column loses every occurrence of the id; otherwise the destination column gets it at the tail; all other columns are unchanged |
| Store.MoveTask | src/store/board.ts:70-101 | a missing source or destination column leaves the board unchanged; otherwise the columns are rewritten as MoveColumns and the task entry gets status = destination, all other tasks kept |
| Store.AddColumn | src/store/board.ts:102-108 | exactly one empty column with the given title is appended after the unchanged columns; tasks are unchanged |
| Store.DeleteColumn | src/store/board.ts:109-117 | the columns left are exactly those with another id, in their old order; a task survives exactly when its status is not the column id, and survivors are unchanged |
| Store.DeleteColumnKeepsCounts | src/store/board.ts:111 | `filter` on the columns keeps each column with another id exactly as often as it occurred and drops every copy of a column with the deleted id |
| StoreProperties.ListedOnce | src/store/board.ts:17-117 | on a consistent board no task id is listed in two columns |
| StoreProperties.InitialBoardConsistent | src/store/board.ts:17-27 | the default board (three empty columns, no tasks) is consistent |
| StoreProperties.AppendKeepsNoDuplicates | src/store/board.ts:46 | appending an id that is not listed keeps the list free of duplicates |
| StoreProperties.AddTaskKeepsConsistent | src/store/board.ts:28-50 | adding a task under a fresh id keeps the board consistent |
| StoreProperties.AddTaskKeepsLists | src/store/board.ts:38-50 | adding under a fresh id keeps lists free of duplicates and every listed id a task in that column |
| StoreProperties.AddTaskKeepsListing | src/store/board.ts:38-50 | after adding, every task is listed |
| StoreProperties.UpdateTaskKeepsConsistent | src/store/board.ts:52-58 | an update of an existing task that leaves its status unchanged keeps the board consistent |
| StoreProperties.UpdateStatusBreaksConsistency | src/store/board.ts:52-58 | an update that changes an existing task's status always leaves the board inconsistent, since the columns are not updated |
| StoreProperties.DeleteTaskKeepsConsistent | src/store/board.ts:59-69 | deleting a task keeps the board consistent |
| StoreProperties.DeleteTaskRemovesEverywhere | src/store/board.ts:59-69 | after deleting, the id is neither a task nor listed in any column |
| StoreProperties.DeleteTaskKeepsOrder | src/store/board.ts:64-67 | each column's remaining ids keep their order |
| StoreProperties.DeleteTaskIdempotent | src/store/board.ts:59-69 | deleting the same task twice is deleting it once |
| StoreProperties.MoveTaskKeepsConsistent | src/store/board.ts:70-101 | moving a task from the column its status names to another column keeps the board consistent |
| StoreProperties.MoveTaskKeepsLists | src/store/board.ts:76-100 | such a move keeps lists free of duplicates and every listed id a task in that column |
| StoreProperties.MoveTaskKeepsListing | src/store/board.ts:76-100 | after a move between two existing columns, every task is listed |
| StoreProperties.MoveTaskWithinColumnDropsId | src/store/board.ts:79-84 | moving a task to its own column removes its id from that column, yet its status names that column |
| StoreProperties.MoveColumnsRoundTrip | src/store/board.ts:78-92 | moving a to c and back leaves every other column unchanged and leaves the id exactly once, at the tail, of a |
| StoreProperties.MoveRoundTrip | src/store/board.ts:70-101 | the same round trip on the whole board, with the task's status back at a |
| StoreProperties.AddColumnKeepsConsistent | src/store/board.ts:102-108 | appending a column under an unused id keeps the board consistent |
| StoreProperties.DeleteColumnKeepsConsistent | src/store/board.ts:109-117 | deleting a column keeps the board consistent |
| StoreProperties.DeleteColumnKeepsLists | src/store/board.ts:109-117 | deleting a column keeps lists free of duplicates and every listed id a task |
| StoreProperties.DeleteColumnKeepsListing | src/store/board.ts:109-117 | on a board where listed ids are tasks, after deleting a column every remaining task is still listed |
| StoreProperties.DistinctIdsFiltered | src/store/board.ts:111 | filtering columns keeps their ids distinct |
| StoreProperties.DeleteColumnCascades | src/store/board.ts:109-117 | after deleting a column no task has its id as status and no column has its id |
| StoreProperties.ScenarioAdd | src/store/board.ts:28-50 | from the default board, adding "Write spec" to todo gives one task with status todo, listed alone in todo |
| StoreProperties.ScenarioMoveColumns | src/store/board.ts:78-92 | moving the task from todo to in-progress empties todo and lists it alone in in-progress |
| StoreProperties.ScenarioMove | src/store/board.ts:70-101 | then moving it to in-progress empties todo, lists it in in-progress and sets its status |
| StoreProperties.ScenarioTailFiltered | src/store/board.ts:111 | filtering in-progress out of in-progress, done and review leaves done and review |
| StoreProperties.ScenarioColumnsFiltered | src/store/board.ts:111 | filtering in-progress out of four columns leaves the other three in order |
| StoreProperties.ScenarioDeleteColumn | src/store/board.ts:102-117 | adding a "Review" column, then deleting in-progress, drops the column and its task |
| StoreInstance.BoardStore.constructor | src/store/board.ts:23-27 | the store starts with no tasks and the default columns, a consistent board |
| StoreInstance.BoardStore.AddTask | src/store/board.ts:28-50 | the state becomes Store.AddTask of the old state; consistency is kept for a fresh id |
| StoreInstance.BoardStore.UpdateTask | src/store/board.ts:52-58 | the state becomes Store.UpdateTask of the old state; consistency is kept when status is not updated |
| StoreInstance.BoardStore.DeleteTask | src/store/board.ts:59-69 | the state becomes Store.DeleteTask of the old state; consistency is kept |
| StoreInstance.BoardStore.MoveTask | src/store/board.ts:70-101 | the state becomes Store.MoveTask of the old state; consistency is kept for a move out of the task's own column |
| StoreInstance.BoardStore.AddColumn | src/store/board.ts:102-108 | the state becomes Store.AddColumn of the old state; consistency is kept for an unused id |
| StoreInstance.BoardStore.DeleteColumn | src/store/board.ts:109-117 | the state becomes Store.DeleteColumn of the old state; consistency is kept |
| BoardView.InitialBoardWellFormed | src/components/Board.tsx:12-20 | the initial board has three empty columns whose keys are exactly the column order, each stored under its own id |
| BoardView.IsMoveIffRelocated | src/components/Board.tsx:40-46 | the two early returns together: a drop is a move exactly when it has a destination and that destination is another location than the source |
| BoardView.ReverseOfMove | src/components/Board.tsx:40-46 | the drop that undoes a move is itself a move, and undoing it again gives the original drop |
| BoardView.DragEnd | src/components/Board.tsx:37-98 | no destination, or a drop back on the same place, changes nothing; the tasks and the column order are never changed |
| BoardView.DragWithinColumn | src/components/Board.tsx:50-69 | a same-column drop rewrites only that column, to remove-at-source then insert-at-destination; the length is kept when the source index is in range, and the multiset too when the dragged id is the one at the source index |
| BoardView.DragAcrossColumns | src/components/Board.tsx:72-97 | a cross-column drop changes only the two columns: the start column is one shorter, the finish column one longer with the dragged id at the destination, and together they keep their multiset when the dragged id was at the source index |
| BoardView.DragWithinShape | src/components/Board.tsx:50-69 | for a column stored under its own id, a same-column drop is the single update of that key |
| BoardView.DragAcrossShape | src/components/Board.tsx:72-97 | for columns stored under their own ids, a cross-column drop is the update of the start key then of the finish key |
| BoardView.SpliceUndone | src/components/Board.tsx:52-54 | moving the id at i to j and then back from j to i restores the list |
| BoardView.DragWithinColumnUndone | src/components/Board.tsx:50-69 | dragging a task within its column and back restores the board |
| BoardView.DragAcrossColumnsUndone | src/components/Board.tsx:72-97 | dragging a task into another column and back to its old place restores the board |
| BoardView.DragKeepsWellFormed | src/components/Board.tsx:37-98 | a drop keeps the column keys equal to the column order, free of duplicates, each under its own id |
| BoardView.DragKeepsTasksListed | src/components/Board.tsx:37-98 | a drop of an existing task keeps every listed id a task |
| BoardView.DragAcrossLeavesStatus | src/components/Board.tsx:88-97 | a cross-column drop between columns of different titles leaves the task's status naming the column it left |
| BoardView.AddTask | src/components/Board.tsx:100-118 | the task is stored under its id; its id goes to the tail of the named column, whose other fields are kept; other tasks and columns and the column order are unchanged |
| BoardView.AddTaskKeepsWellFormed | src/components/Board.tsx:100-118 | adding a task keeps the board well formed and every listed id a task |
| BoardView.AddTaskKeepsStatuses | src/components/Board.tsx:100-118 | adding a new task to a column titled with its status keeps every listed task's status equal to its column's title |
| BoardView.Digit | src/components/Board.tsx:121 | a decimal digit is a character between '0' and '9' |
| BoardView.Decimal | src/components/Board.tsx:121 | the numeral of the clock value is non-empty and made of decimal digits |
| BoardView.DecimalInjective | src/components/Board.tsx:121 | distinct clock values have distinct numerals |
| BoardView.ColumnIdAtInjective | src/components/Board.tsx:121 | columns made at distinct times get distinct ids |
| BoardView.ColumnIdAt | src/components/Board.tsx:121 | a new column's id starts with "column-" and is longer than that prefix |
| BoardView.AddColumn | src/components/Board.tsx:120-138 | an empty column with the given title and colour bg-gray-100 is stored under the clock-made id, which is appended to the column order; tasks and the other columns are unchanged |
| BoardView.AddColumnKeepsWellFormed | src/components/Board.tsx:120-138 | adding a column under an unused id keeps the board well formed and every listed id a task |
| BoardView.AddColumnsAtTwoTimes | src/components/Board.tsx:120-138 | adding two columns at distinct times to a well formed board that has neither clock-made id keeps it well formed |
| BoardView.FindByTitle | src/components/Board.tsx:141 | `columnOrder.find` by title: none exactly when no column in the order has the title; otherwise the first id in the order whose column has it |
| BoardView.TargetKey | src/components/Board.tsx:141 | the key read is "" when no column in the order has the title; otherwise it is a column with that title, the first such in the order |
| BoardView.TargetKeyInWellFormed | src/components/Board.tsx:141 | on a well formed board with a column of that title, the lookup reads only existing columns and the key found is that first column, stored under its own id |
| BoardView.AddTaskToColumn | src/components/Board.tsx:140-143 | the task is stored under its id and every other task is kept; the column stored under the found column's id gains the task id at its tail and keeps its other fields; every other column, the column keys and the column order are unchanged |
| BoardView.AddTaskToColumnFirstMatch | src/components/Board.tsx:140-143 | on a well formed board, returns the position of the first column in display order titled with the task's status; that column gains the task id at its tail with its other fields kept, and no other column and no other task changes |
| BoardView.AddTaskToColumnKeepsInvariants | src/components/Board.tsx:140-143 | adding a fresh task by a title that exists keeps the board well formed, listed ids tasks, and statuses equal to titles |
| BoardComponent.Component.constructor | src/components/Board.tsx:12-24 | the component starts with the initial board and the form closed |
| BoardComponent.Component.OnDragEnd | src/components/Board.tsx:37-98 | the splice steps leave the board equal to DragEnd of the old board; well-formedness and listed tasks are kept |
| BoardComponent.Component.AddTask | src/components/Board.tsx:100-118 | the board becomes BoardView.AddTask of the old board, keeping well-formedness and listed tasks |
| BoardComponent.Component.AddColumn | src/components/Board.tsx:120-138 | the board becomes BoardView.AddColumn of the old board and the form is closed |
| BoardComponent.Component.AddTaskToColumn | src/components/Board.tsx:140-143 | the board becomes BoardView.AddTaskToColumn of the old board; statuses stay equal to titles for a fresh task |
| TaskDetails.ChangeField | src/components/TaskDetails.tsx:36-40 | only the named field takes the value |
| TaskDetails.ChangeStatus | src/components/TaskDetails.tsx:42-46 | only the status takes the value |
| TaskDetails.ChangeFieldLastWins | src/components/TaskDetails.tsx:36-40 | two edits of the same field keep only the second value |
| TaskDetails.StatusOptions | src/components/TaskDetails.tsx:130-134 | the status choices are the column titles in column order, not the column ids |
| TaskDetails.StatusOptionIsColumnTitle | src/components/TaskDetails.tsx:130-134 | a chosen status always names a column of a well formed board, so the board component can place the task |
| TaskDetails.SaveTask | src/components/TaskDetails.tsx:48-56 | only the entry under the task's id is replaced; columns and column order are untouched |
| TaskDetails.SaveTaskKeepsWellFormed | src/components/TaskDetails.tsx:48-56 | saving keeps the board well formed and every listed id a task |
| TaskDetails.SaveStatusNotRelocated | src/components/TaskDetails.tsx:48-56 | saving a listed task with another status leaves it listed under a column of a different title |
| TaskDetails.DeleteTask | src/components/TaskDetails.tsx:62-79 | the task key is removed and others kept; every column loses the id, keeps its other ids in order with their counts, and keeps its other fields; column keys and order are unchanged |
| TaskDetails.DeleteTaskIdempotent | src/components/TaskDetails.tsx:62-79 | deleting twice is deleting once |
| TaskDetails.DeleteAfterSave | src/components/TaskDetails.tsx:48-79 | deleting after saving the same task is the same as deleting it |
| TaskDetails.DeleteTaskKeepsInvariants | src/components/TaskDetails.tsx:62-79 | deleting keeps well-formedness, listed ids tasks, and statuses equal to titles |
| TaskDetailsPage.Page.constructor | src/components/TaskDetails.tsx:24-34 | after loading, the page holds the saved board and the task under the id, or neither when nothing is saved |
| TaskDetailsPage.Page.HandleChange | src/components/TaskDetails.tsx:36-40 | with a task, it becomes ChangeField of the old task; without one, nothing changes |
| TaskDetailsPage.Page.HandleStatusChange | src/components/TaskDetails.tsx:42-46 | with a task, it becomes ChangeStatus of the old task; without one, nothing changes |
| TaskDetailsPage.Page.HandleSave | src/components/TaskDetails.tsx:48-60 | the board to write is SaveTask of the board and task, and there is none when either is missing |
| TaskDetailsPage.Page.HandleDelete | src/components/TaskDetails.tsx:62-83 | the board to write is DeleteTask of the board and the task's id, and there is none when either is missing |

## Left out

- Persistence is not modelled: the store's `persist` middleware, and `localStorage` reads, writes and JSON parsing. It is I/O. The loaded board is a parameter of `TaskDetailsPage.Page.constructor`. The board component starts from its initial board.
- The clock and the id generator are parameters: `generateId()`, `new Date()` and `Date.now()`. `src/lib/utils` is not part of this model. Preconditions state where a fresh id is needed.
- Timestamps are integers. The loss of `Date` values after a JSON round trip is not modelled.
- Navigation (`window.location.href`) is not modelled.
- The drag-and-drop libraries are not modelled. Only the drop result that `onDragEnd` reads is kept: dragged id, source, optional destination.
- Rendering is not modelled: the JSX, the other components, and the non-empty-title guards of the forms.
- Board.tsx and TaskDetails.tsx throw a TypeError when a handler reads a column key that is missing. The model states the absence of such reads as a precondition: `DropTargetsKnown`, `columnId in b.columns`, `CanAddToColumn`, and the requirement of `StatusOptions`.
- `BoardView.DragEnd` decides "same column" by comparing droppable ids. The source compares column objects with `===`. These agree whenever distinct keys hold distinct column objects, which is the case for every board the source builds.
- `updates` in `Store.UpdateTask` has one optional value per field. An explicit `undefined` in `updates` would also erase a field; the model does not distinguish it from an absent field.
- Store.UpdateTask: models the code as written. It does not move the task's id to the column a new status names, although a status edit is evidently meant to (see above).
