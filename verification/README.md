# Kanban task ordering, in Dafny

A model of the two pieces of ordering logic in a small kanban board, with
proofs about them:

- The backend **task service** (`TasksService`) runs `findAll`, `create`,
  `update` and `remove` over a collection of task documents
  `{ _id, title, status, position }` and an activity log. Each call is one
  pure transition, `(tasks, log, arguments) -> Ok(tasks', log', task) | NotFound`.
  `create` writes its CREATED entry before `save()`, and the schema's
  required `title` rejects an empty one. That outcome is `Invalid`: the log
  gains the entry and the tasks are unchanged.
  The heart is `update`, which repositions a task in one of three ways:
  - A `targetId` that resolves moves the task onto the target's position and
    shifts every task between the two positions by one, whatever its status.
  - With no `targetId` and a new status, the task goes to the end of the
    destination column.
  - Otherwise the position is kept.

  A MOVED entry is logged exactly when the status changes.
- The board's **drop handler** (`onDragEnd`), without its network call. It
  takes the dragged task out, splits the rest into the destination column and
  the other tasks, and splices the restyled task into the column at the drop
  index. The new list is the other tasks followed by the column. The PATCH
  body it sends is `{ status, targetId }`, where `targetId` is the task right
  after the dragged one.

Modules:

| file | module | contents |
|---|---|---|
| `seqs.dfy` | `Seqs` | generic `Filter` (`Array.prototype.filter`), `Splice` (`splice(i, 0, x)`), subsequences |
| `schema.dfy` | `Schema` | the `Task` record, `findById` as `IndexOf`/`Find`, columns |
| `tasks_service.dfy` | `TasksService` | the four service calls and the log |
| `tasks_service_properties.dfy` | `TasksServiceProperties` | what each call changes, what it leaves alone, and the invariants it keeps |
| `corrected_update.dfy` | `CorrectedUpdate` | `update` with the downward-move landing corrected (see Findings) |
| `board.dfy` | `Board` | `onDragEnd` and the PATCH body |
| `board_properties.dfy` | `BoardProperties` | permutation, order, index and `targetId` properties of the drop |

JavaScript truthiness is modelled explicitly. `status` and `targetId` are
`Option<string>`, and both a missing value (or `null`) and `""` are false.
So `status || oldStatus` is `OrElse`, and `if (updateData.targetId)` is
`Truthy`.

A truthy `targetId` that names no task does not reach the append branch.
That branch is the `else` of `if (updateData.targetId)` (tasks.service.ts,
lines 33 and 53). The task's position is kept even when its status changes.
The model follows this code, as `UpdateUnresolvedTargetKeepsPosition` states.

Positions are global: the shift in `update` selects on position only, and
`create` numbers a task by the count of every column. So the set of
positions survives a targeted move only when every position between the old
and the new one is occupied. `UpdateOntoTargetKeepsPositionSet` carries that
hypothesis. Without it, moving A:0 onto B:5 yields B:4, A:5, and position 0
is lost. Pairwise-distinct positions are kept with no extra hypothesis.

## Model

| member | source | states |
|---|---|---|
| Schema.IndexOf | kanban-backend/src/tasks/tasks.service.ts:26-27 | `findById` over the collection: `None` exactly when no task carries the id; otherwise the index of the first task that does |
| Schema.ColumnPartition | kanban-backend/src/tasks/tasks.service.ts:55 | the tasks of one status and the tasks of every other status together make up the whole collection, so the column count is at most the total count |
| Seqs.Filter | kanban-frontend/app/page.tsx:57-61 | `filter` keeps only elements that satisfy the predicate and never grows the list |
| Seqs.FilterPartition | kanban-frontend/app/page.tsx:60-61 | the two complementary filters for the destination column lose and invent no task |
| Seqs.FilterIsSubseq | kanban-frontend/app/page.tsx:57-61 | `filter` keeps the relative order of what it keeps |
| Seqs.Splice | kanban-frontend/app/page.tsx:64 | `splice(index, 0, x)` puts `x` at `index`, or at the end when `index` is past it; taking `x` out again gives back the original list |
| TasksService.OrElse | kanban-backend/src/tasks/tasks.service.ts:30 | `status \|\| oldStatus` is the new status whenever it is present and non-empty, and the old status exactly otherwise |
| TasksService.InsertByPosition | kanban-backend/src/tasks/tasks.service.ts:15 | inserting into a position-sorted list keeps it sorted and adds exactly that task |
| TasksService.FindAll | kanban-backend/src/tasks/tasks.service.ts:14-16 | the result is sorted by ascending position and is a permutation of the stored tasks |
| TasksService.Create | kanban-backend/src/tasks/tasks.service.ts:18-23 | the save is rejected exactly when the title is empty (the schema's `required` title, task.schema.ts:10); then the tasks are unchanged but the CREATED entry, written before `save()`, stays. Otherwise one new "todo" task numbered by the count of all tasks is appended after the untouched existing ones, with exactly one CREATED entry |
| TasksService.Settle | kanban-backend/src/tasks/tasks.service.ts:59-64 | after repositioning, only the moved task's slot changes: it keeps its id and title and takes the new status and position; a MOVED entry is appended exactly when the status changed, and the log is untouched exactly when it did not |
| TasksService.ShiftSiblings | kanban-backend/src/tasks/tasks.service.ts:38-50 | moving down, exactly the tasks of any status in (oldPos, newPos] lose one; moving up, exactly those in [newPos, oldPos) gain one; nothing else and no other field changes |
| TasksService.Update | kanban-backend/src/tasks/tasks.service.ts:25-67 | `NotFound` exactly for an unknown id; otherwise ids and titles are kept, only the moved task's status may change, it becomes `status \|\| oldStatus`, and a MOVED entry is logged exactly on a status change |
| TasksService.Remove | kanban-backend/src/tasks/tasks.service.ts:69-74 | `NotFound` exactly for an unknown id; otherwise the returned task carries the id, the collection loses exactly that task, and one DELETED entry is logged |
| TasksServiceProperties.CreateCountsEveryColumn | kanban-backend/src/tasks/tasks.service.ts:19-20 | the new position is the count of every column together, so it lies past the end of "todo" whenever another column is non-empty |
| TasksServiceProperties.RemoveUndoesCreate | kanban-backend/src/tasks/tasks.service.ts:69-74 | removing the task just created (under a fresh id) restores the collection and returns that task, and the log keeps both entries; after a rejected create there is nothing to remove and only the CREATED entry remains |
| TasksServiceProperties.CreateKeepsIdsUnique | kanban-backend/src/tasks/tasks.service.ts:18-22 | with a fresh id, ids stay unique whether the save succeeds or is rejected |
| TasksServiceProperties.RemoveDeletesExactlyOne | kanban-backend/src/tasks/tasks.service.ts:70-73 | with unique ids the removed id is gone, ids stay unique, and every other task is kept as it was, with no renumbering |
| TasksServiceProperties.UpdateOntoTarget | kanban-backend/src/tasks/tasks.service.ts:33-52 | a resolved target: the task lands on the target's position, and every other task moves by one exactly when its position lies in the shifted range |
| TasksServiceProperties.MovedTaskTakesTarget | kanban-backend/src/tasks/tasks.service.ts:34-51 | under a targeted move, the moved task ends on the target's old position |
| TasksServiceProperties.OtherTaskShifted | kanban-backend/src/tasks/tasks.service.ts:40-49 | under a targeted move, every task other than the moved one undergoes the same shift, regardless of status |
| TasksServiceProperties.UpdateAppendsToColumn | kanban-backend/src/tasks/tasks.service.ts:53-57 | no target and a new status: the task takes the destination column's count before the call, and nothing else changes |
| TasksServiceProperties.UpdateUnresolvedTargetKeepsPosition | kanban-backend/src/tasks/tasks.service.ts:33-35 | a truthy target that resolves to nothing is ignored: only the status may change |
| TasksServiceProperties.UpdateWithoutMoveIsNoOp | kanban-backend/src/tasks/tasks.service.ts:29-60 | no target and no new status: neither the tasks nor the log change |
| TasksServiceProperties.UpdateWithoutTargetIsIdempotent | kanban-backend/src/tasks/tasks.service.ts:53-60 | repeating an update that names no target changes nothing the second time |
| TasksServiceProperties.UpdateOntoTargetKeepsPositionsDistinct | kanban-backend/src/tasks/tasks.service.ts:38-51 | a targeted move keeps pairwise-distinct positions distinct |
| TasksServiceProperties.UpdateOntoTargetKeepsPositionSet | kanban-backend/src/tasks/tasks.service.ts:38-51 | when the range between the old and new position is fully occupied, the move only permutes positions |
| TasksServiceProperties.TargetMoveInventsNoPosition | kanban-backend/src/tasks/tasks.service.ts:38-51 | under that condition, every position after the move already existed before |
| TasksServiceProperties.TargetMoveLosesNoPosition | kanban-backend/src/tasks/tasks.service.ts:38-51 | under that condition, every position before the move still exists after it |
| TasksServiceProperties.UpdateKeepsPositionsNonNegative | kanban-backend/src/tasks/tasks.service.ts:25-67 | no update makes a position negative |
| TasksServiceProperties.UpdateKeepsIdsUnique | kanban-backend/src/tasks/tasks.service.ts:25-67 | update keeps ids unique |
| TasksServiceProperties.MoveDownLandsAfterTarget | kanban-backend/src/tasks/tasks.service.ts:38-51 | moving down onto a target leaves the task one position AFTER the target |
| TasksServiceProperties.MoveOntoTargetExample | kanban-backend/src/tasks/tasks.service.ts:38-51 | "todo" A:0, B:1, C:2 and "done" D:1; moving A onto C gives B:0, C:1, A:2, and D in another column is pulled to 0 |
| CorrectedUpdate.UpdateLandingBefore | kanban-backend/src/tasks/tasks.service.ts:25-67 | `update` with the downward landing corrected; `NotFound` exactly for an unknown id |
| CorrectedUpdate.LandsImmediatelyBeforeTarget | kanban-backend/src/tasks/tasks.service.ts:36-51 | with the correction, a targeted move in either direction leaves the task immediately before the target |
| CorrectedUpdate.AgreesExceptMovingDown | kanban-backend/src/tasks/tasks.service.ts:25-67 | the correction changes only downward targeted moves |
| Board.Dragged | kanban-frontend/app/page.tsx:54 | `find` returns a task of the list that carries the dragged id |
| Board.OccursOnceIsFound | kanban-frontend/app/page.tsx:54 | a dragged id that occurs once is found |
| Board.OnDragEnd | kanban-frontend/app/page.tsx:43-77 | the list and PATCH are left alone exactly when the drop is outside every column or on its own spot; the PATCH status is always the destination column |
| BoardProperties.OnlyTheDraggedTask | kanban-frontend/app/page.tsx:54-57 | `find` and the filter agree: the only task carrying the dragged id is the one found |
| BoardProperties.DropAnatomy | kanban-frontend/app/page.tsx:57-67 | the new list is the other columns' tasks followed by the spliced column, and its destination column is exactly that spliced column |
| BoardProperties.DropIsPermutation | kanban-frontend/app/page.tsx:53-67 | the new list has the old length and is the old list with the dragged task exchanged for its restyled copy |
| BoardProperties.DropKeepsIds | kanban-frontend/app/page.tsx:53-67 | the new list carries the same multiset of ids |
| BoardProperties.DraggedLandsAtDropIndex | kanban-frontend/app/page.tsx:60-64 | the dragged task, with the destination as its status and no other field changed, sits at the drop index of its column, or last when the index is past the end |
| BoardProperties.OtherColumnsComeFirst | kanban-frontend/app/page.tsx:61-67 | every task outside the destination column comes before every task inside it |
| BoardProperties.OtherColumnsKeepOrder | kanban-frontend/app/page.tsx:57-67 | the tasks outside the destination column keep their original relative order |
| BoardProperties.ColumnKeepsOrder | kanban-frontend/app/page.tsx:60-67 | around the inserted task, the destination column's other tasks keep their original relative order, and none of them is the dragged task |
| BoardProperties.TargetIsNextInColumn | kanban-frontend/app/page.tsx:70-77 | `targetId` is the id of the task immediately after the dragged one in the new column, or `null` when the dragged task is last |
| BoardProperties.DragDownExample | kanban-frontend/app/page.tsx:43-77 | in a "todo" column A, B, C, dragging A to index 1 shows B, A, C and sends `{ status: "todo", targetId: C }` |

## Left out

- HTTP routing, dependency-injection modules, CORS and the bootstrap
  (`tasks.controller.ts`, `tasks.module.ts`, `app.module.ts`, `main.ts`) are
  not part of this model. They are framework wiring with no ordering logic.
- MongoDB persistence is not modelled. The `update` call runs as
  read, `updateMany`, then `save`; each service call is modelled as one
  atomic transition. Races between concurrent requests are out of scope.
- `LogsService` is not part of this model. A log entry keeps the action and
  the fields its sentence is built from, which are the title and, for a
  move, the new status. The rendered text is not modelled.
- Document ids are assigned by the store. `Create` takes the new id as a
  parameter, and the lemmas that need freshness require it.
- The schema's `timestamps` option and its field defaults are not modelled.
  `create` always supplies both `status` and `position`, so the defaults
  never apply in the calls modelled here.
- Positions are JavaScript numbers. They are modelled as mathematical
  integers, because every position the service writes is a count or a count
  shifted by one.
- TasksService.FindAll: the order among tasks with equal positions is unspecified in
  the store and is not modelled.
- The board's `fetchData`, `addTask`, the fire-and-forget `fetch` with its
  refetch-on-failure rollback, the React state hooks and all rendering are
  network, asynchrony and UI, and are not modelled. `OnDragEnd` returns the
  list it would set and the PATCH body it would send.
- Board.OnDragEnd: requires the dragged id to occur exactly once in the
  list on a real move. A `find` that returns `undefined` would spread no
  fields into the inserted object, and that case is not modelled.
- The drop index is a natural number. The drag library never reports a
  negative index, so `splice` with a negative start is not modelled.
- A per-column contiguous-position invariant is not stated. The code
  neither maintains nor assumes one: shifts are global, `create` uses the
  global count, and `remove` leaves gaps.
- TasksServiceProperties.UpdateOntoTargetKeepsPositionSet: requires every
  position between the old and the new one to be occupied. Without that,
  the set of positions changes (see the A:0 / B:5 example above).
- TasksService.Create: the title is a string, so a request with no title at
  all (`undefined`) is not modelled; it fails validation like the empty one.
  A rejected save throws, so the caller receives an error and no task; the
  model returns the resulting store only.
- TasksService.Update: an `id` or a truthy `targetId` that is not a valid
  ObjectId makes `findById` throw a cast error. The model treats any id
  as a plain string: an unknown `id` yields `NotFound`, and an unknown
  `targetId` is ignored like one that resolves to nothing.
- TasksService.Remove: an `id` that is not a valid ObjectId makes
  `findByIdAndDelete` throw a cast error; the model yields `NotFound`.
- TasksService.Update: an unknown id yields `NotFound`, which carries no
  state. The tasks and the log are therefore unchanged by construction,
  rather than by a separate clause.

## Findings

| source | as written | input that shows it | evidently intended | confidence | as-written member | corrected member |
|---|---|---|---|---|---|---|
| kanban-backend/src/tasks/tasks.service.ts:38-51 | when moving down (`oldPos < newPos`), the tasks in (oldPos, newPos] move up one, the target included, and the moved task takes `newPos`, so it lands immediately AFTER the target | "todo" tasks A:0, B:1, C:2. The board drags A to index 1, shows B, A, C and sends `targetId` C (`BoardProperties.DragDownExample`). The service gives B:0, C:1, A:2, i.e. B, C, A (`TasksServiceProperties.MoveOntoTargetExample`) | `targetId` is the task the moved one should end up immediately before, which is what the board computes and what an upward move already does; moving down, the task should take `newPos - 1` | medium; not executed | TasksServiceProperties.MoveDownLandsAfterTarget | CorrectedUpdate.LandsImmediatelyBeforeTarget |
