# To-do dashboard: the client-side state machines, in Dafny

This project models the client-side state of a Next.js to-do application.

The **dashboard page** (`app/dashboard/page.tsx`) is modelled by
`DashboardPage.Dashboard`, in `dashboard.dfy`. It holds:

- the user's lists, each with its tasks;
- the set of expanded list ids;
- the two creation dialogs;
- the list order kept in local storage under `todo-list-order`.

Each handler sends at most one request to the server and then replaces the
state with a value computed by a pure sequence operation. Those operations
live in:

- `list_ops.dfy`: appending, updating and filtering by id, and re-indexing by an id sequence;
- `saved_order.dfy`: the stable sort by saved position that `fetchLists` performs;
- `array_move.dfy`: `arrayMove` of `@dnd-kit/sortable`, with the `splice` semantics of JavaScript.

The **task row** (`components/Task.tsx`) is modelled by `TaskItem.TaskView`,
in `task_item.dfy`. It covers:

- the delayed toggle on click;
- the double click that cancels it and opens the editor;
- the rename guard of `handleSubmit`, which trims the name with `String.prototype.trim` (modelled in `js_string.dfy`);
- Escape, which cancels the edit.

How the environment is represented:

- **Server.** A handler's reply from the server is a parameter, either `Ok(body)` or `NotOk` (or an `ok` flag when the body is unused). The request a handler sends is its result.
- **Storage.** Local and session storage are fields: `savedOrder` and `storedOffset`.
- **Random draws.** `Math.random` draws are parameters in `[-6, 6)`.
- **Toggle timer.** The click timer is the field `pendingToggle`. It holds the completion state the timer's closure captured, and `ToggleTimerFires` is the moment the timer fires.

Points where the code behaves differently from what one might expect:

- **Saved order.** Lists whose id is not in the saved order sort *before* the saved ones, because `indexOf` returns -1 for them. A design where unsaved lists are appended at the end would differ here; the model follows the code.
- **Deleting a list.** This does not rewrite the saved order. `SavedOrder.UnknownSavedIdIgnored` shows the stale id has no effect on later sorts.
- **Padded task names.** Neither the creation dialog, `handleCreateTask` nor the server trims a new task's name, but `handleSubmit` compares the trimmed edit with the untrimmed name. Opening the editor on a name with surrounding white space and leaving it untouched therefore renames the task to its trimmed form (`TaskItem.UntouchedPaddedNameRenames`).
- **Handlers are not optimistic.** Every handler that talks to the server changes the lists only after an ok reply.

## Model

| member | source | states |
|---|---|---|
| Types.Ids | app/dashboard/page.tsx:85 | the id sequence has one entry per list, in list order |
| Types.IndexOf | app/dashboard/page.tsx:66 | `indexOf`: the first position holding the id, or -1 exactly when it is absent |
| ListOps.AppendList | app/dashboard/page.tsx:84 | exactly one list with no tasks is added after the unchanged existing lists, and the ids grow by the new id |
| ListOps.AddTask | app/dashboard/page.tsx:103-113 | the task is appended to every list with that id; list count, ids, order and all other lists are unchanged |
| ListOps.ApplyEdit | app/dashboard/page.tsx:132 | an edit writes its own field and keeps the task's id and its other field (the `{ ...task, isCompleted }` and `{ ...task, taskName: newName }` spreads, the second at app/dashboard/page.tsx:211) |
| ListOps.EditTasks | app/dashboard/page.tsx:130-135 | tasks with the id get the new field value and keep the other field; all other tasks, ids and length are unchanged |
| ListOps.UpdateTask | app/dashboard/page.tsx:125-140 | only tasks with that id inside lists with that id change; ids, lengths, order and other lists are unchanged |
| ListOps.WithoutTask | app/dashboard/page.tsx:166 | the task filter is no longer than its input and keeps no task with the removed id |
| ListOps.WithoutTaskKeepsOthers | app/dashboard/page.tsx:166 | the task filter keeps exactly the tasks with other ids, each with its multiplicity |
| ListOps.RemoveTask | app/dashboard/page.tsx:161-171 | the filter applies to the named lists only; list ids, names and other lists are unchanged |
| ListOps.RemoveList | app/dashboard/page.tsx:180 | the list filter is no longer than its input and keeps no list with the removed id |
| ListOps.RemoveListKeepsOthers | app/dashboard/page.tsx:180 | no list with the id remains, and every other list remains with its multiplicity |
| ListOps.ToggleMember | app/dashboard/page.tsx:145-153 | the id flips membership and no other id changes |
| ListOps.FindIndex | app/dashboard/page.tsx:189-190 | `findIndex`: the first list with the id, or -1 exactly when none has it |
| ListOps.FindIndexDistinct | app/dashboard/page.tsx:189-190 | with distinct ids, `findIndex` finds each list at its own position |
| ListOps.Find | app/dashboard/page.tsx:225 | `find(...)!` returns a list that has the id, the first such |
| ListOps.Reorder | app/dashboard/page.tsx:224-226 | the result's ids are exactly the given id sequence, and each entry is the first current list carrying that id |
| ListOps.RemoveListAbsent | app/dashboard/page.tsx:180 | deleting an id no list carries changes nothing |
| ListOps.RemoveListSnoc | app/dashboard/page.tsx:180 | the list filter distributes over appending one list |
| ListOps.DeleteUndoesCreateList | app/dashboard/page.tsx:175-182 | deleting a just-created list with a fresh id restores the lists from before the creation |
| ListOps.WithoutTaskAbsent | app/dashboard/page.tsx:166 | filtering an absent task id changes nothing |
| ListOps.WithoutTaskSnoc | app/dashboard/page.tsx:166 | the task filter distributes over appending one task |
| ListOps.DeleteUndoesCreateTask | app/dashboard/page.tsx:156-173 | deleting a just-created task with a fresh id restores the lists from before the creation |
| ListOps.UpdateTaskIdempotent | app/dashboard/page.tsx:118-142 | applying the same completion or name twice is applying it once |
| ListOps.UpdateTaskLastWins | app/dashboard/page.tsx:197-221 | of two edits to the same field, the later one decides |
| ListOps.UpdateTaskNoOp | app/dashboard/page.tsx:125-140 | setting a value every targeted task already has changes nothing |
| ListOps.ToggleTwiceRestores | app/dashboard/page.tsx:118-142 | setting the opposite completion and then the old one restores the lists |
| ListOps.ToggleMemberTwice | app/dashboard/page.tsx:144-154 | two expansion toggles of one id restore the set |
| ListOps.ReorderByOwnIds | app/dashboard/page.tsx:223-227 | re-indexing lists with distinct ids by their own id sequence is the identity |
| ListOps.ReorderIdempotent | app/dashboard/page.tsx:223-227 | re-indexing twice by the same ids is re-indexing once |
| SavedOrder.Key | app/dashboard/page.tsx:66 | a list's sort key is -1 or a position of the saved order that holds the list's id |
| SavedOrder.Insert | app/dashboard/page.tsx:65-67 | insertion step of the sort: the result is one longer |
| SavedOrder.InsertAddsOne | app/dashboard/page.tsx:65-67 | insertion adds exactly the inserted list to the multiset |
| SavedOrder.InsertSorted | app/dashboard/page.tsx:65-67 | insertion into a key-sorted sequence keeps it sorted |
| SavedOrder.SortByOrder | app/dashboard/page.tsx:65-67 | the sort keeps the number of lists |
| SavedOrder.SortByOrderSorts | app/dashboard/page.tsx:65-67 | the sort is a permutation of the fetched lists, ordered by first position in the saved order |
| SavedOrder.ApplySavedOrder | app/dashboard/page.tsx:61-71 | a permutation of the fetched lists: server order when nothing is saved, sorted by saved position otherwise |
| SavedOrder.InsertWithKey | app/dashboard/page.tsx:65-67 | insertion puts the list first among the lists with its key, before the ones already sorted, which keeps the server's earlier list first |
| SavedOrder.SortByOrderIsStable | app/dashboard/page.tsx:65-67 | lists with equal keys keep their server order (stable sort) |
| SavedOrder.HeadsAgree | app/dashboard/page.tsx:65-67 | two sorted sequences with equal per-key subsequences start with the same list |
| SavedOrder.TailsAgree | app/dashboard/page.tsx:65-67 | removing a shared first list keeps the per-key subsequences equal |
| SavedOrder.StableSortUnique | app/dashboard/page.tsx:65-67 | a stable sort by key has exactly one result |
| SavedOrder.SortByOrderIsTheStableSort | app/dashboard/page.tsx:65-67 | the sort is the stable sort by saved position, and any stable sort equals it |
| SavedOrder.SortedPositions | app/dashboard/page.tsx:65-67 | unsaved ids (key -1) come before saved ones, and saved ids follow their saved positions |
| SavedOrder.NothingSavedKeepsServerOrder | app/dashboard/page.tsx:62-70 | when no fetched id is saved, the server order is kept |
| SavedOrder.UnknownSavedIdIgnored | app/dashboard/page.tsx:63-67 | a saved id that names no fetched list has no effect on the result |
| SavedOrder.ReloadShowsReorder | app/dashboard/page.tsx:65-67 | sorting by a saved order that names each list once gives the lists in that order |
| SavedOrder.FindDistinct | app/dashboard/page.tsx:225 | with distinct ids, `find` by a list's id returns that list |
| SavedOrder.FindInPermutation | app/dashboard/page.tsx:225 | two permutations with distinct ids hold the same list under each id |
| SavedOrder.ReloadIgnoresServerOrder | app/dashboard/page.tsx:56-73 | after a full saved order, the result does not depend on the order the server sends |
| ArrayMove.SpliceStart | app/dashboard/page.tsx:192 | `splice`'s start: a negative start counts from the end, clamped to the array |
| ArrayMove.MoveSource | app/dashboard/page.tsx:189 | the source position is a valid index; -1 takes the last element |
| ArrayMove.MoveTarget | app/dashboard/page.tsx:190 | the target position is a valid index; -1 puts the element last |
| ArrayMove.Without | app/dashboard/page.tsx:192 | removing one element shortens by one |
| ArrayMove.PutAt | app/dashboard/page.tsx:192 | inserting one element lengthens by one |
| ArrayMove.WithoutPutAt | app/dashboard/page.tsx:192 | removing what was just inserted restores the sequence |
| ArrayMove.PutAtWithout | app/dashboard/page.tsx:192 | inserting what was just removed at its place restores the sequence |
| ArrayMove.Move | app/dashboard/page.tsx:192 | `arrayMove` keeps the length |
| ArrayMove.MovePlaces | app/dashboard/page.tsx:192 | the moved element lands at the target, and the others keep their relative order |
| ArrayMove.MovePermutes | app/dashboard/page.tsx:192 | `arrayMove` is a permutation |
| ArrayMove.MoveBack | app/dashboard/page.tsx:192 | moving back from the target to the source restores the sequence |
| ArrayMove.MoveInPlace | app/dashboard/page.tsx:192 | moving an element onto its own position changes nothing |
| ArrayMove.MoveOrigin | app/dashboard/page.tsx:192 | every non-target position holds an element from a distinct non-source position |
| DashboardPage.DragEndLists | app/dashboard/page.tsx:184-195 | a drag keeps the number of lists |
| DashboardPage.DragEndMoves | app/dashboard/page.tsx:187-193 | a drag is a permutation; equal ids change nothing; the dragged list takes the drop target's index and the others keep their order |
| DashboardPage.MovedIdsDiffer | app/dashboard/page.tsx:189-192 | for lists with distinct ids, after a move two different positions hold lists with different ids |
| DashboardPage.DragEndKeepsIdsDistinct | app/dashboard/page.tsx:188-193 | a drag keeps list ids distinct |
| DashboardPage.DragEndFindsAgain | app/dashboard/page.tsx:189-192 | after a drag, the dragged list is found where it was dropped |
| DashboardPage.DragEndUndo | app/dashboard/page.tsx:184-195 | dropping the dragged list back on the list at its old position restores the screen |
| DashboardPage.ReloadKeepsScreenOrder | app/dashboard/page.tsx:56-73 | when the saved order is the ids on screen, a reload shows the same lists in the same order |
| DashboardPage.ReloadAfterCreate | app/dashboard/page.tsx:83-87 | after creating a list, a reload shows the lists as they were on screen, whatever the server order |
| DashboardPage.ReloadAfterReorder | app/dashboard/page.tsx:223-229 | after a reorder, a reload shows the lists in the new order, whatever the server order |
| DashboardPage.Dashboard.constructor | app/dashboard/page.tsx:32-35 | no lists, nothing expanded, both dialogs closed, saved order as stored |
| DashboardPage.Dashboard.FetchLists | app/dashboard/page.tsx:56-73 | sends GET; on ok, the lists are the stable sort of the fetched lists by saved position (server order when nothing saved); otherwise unchanged |
| DashboardPage.Dashboard.CreateList | app/dashboard/page.tsx:75-91 | sends POST; on ok, appends the list, saves exactly the new id sequence and closes the dialog; otherwise nothing changes |
| DashboardPage.Dashboard.CreateTask | app/dashboard/page.tsx:93-116 | no request and no change without a target list; otherwise POST, and on ok the task is appended to that list and the dialog closes |
| DashboardPage.Dashboard.ToggleTaskCompletion | app/dashboard/page.tsx:118-142 | sends PUT with the completion; on ok only the targeted tasks change |
| DashboardPage.Dashboard.ToggleListExpansion | app/dashboard/page.tsx:144-154 | flips membership of exactly that id |
| DashboardPage.Dashboard.DeleteTask | app/dashboard/page.tsx:156-173 | sends DELETE; on ok the task is filtered out of the named list only |
| DashboardPage.Dashboard.DeleteList | app/dashboard/page.tsx:175-182 | sends DELETE; on ok the list is filtered out, and the saved order is untouched |
| DashboardPage.Dashboard.DragEnd | app/dashboard/page.tsx:184-195 | the lists become the drag result; nothing else changes |
| DashboardPage.Dashboard.RenameTask | app/dashboard/page.tsx:197-221 | sends PUT with the name; on ok only the targeted tasks change |
| DashboardPage.Dashboard.ReorderLists | app/dashboard/page.tsx:223-229 | the lists are re-indexed by the given ids, which are saved exactly |
| DashboardPage.Dashboard.OpenCreateListModal | app/dashboard/page.tsx:247 | opens the list dialog |
| DashboardPage.Dashboard.CloseCreateListModal | app/dashboard/page.tsx:279 | closes the list dialog |
| DashboardPage.Dashboard.OpenCreateTaskModal | app/dashboard/page.tsx:270 | opens the task dialog for that list |
| DashboardPage.Dashboard.CloseCreateTaskModal | app/dashboard/page.tsx:287 | closes the task dialog |
| DashboardPage.CreateListThenReload | app/dashboard/page.tsx:75-91 | creating a list and then reloading leaves the lists as just after creation |
| DashboardPage.ReorderThenReload | app/dashboard/page.tsx:223-229 | reordering and then reloading leaves the lists in the new order |
| JsString.IsSpace | components/Task.tsx:114 | the characters `trim` drops: in ASCII exactly tab, line feed, vertical tab, form feed, carriage return and space, and none of the C1 controls |
| JsString.Leading | components/Task.tsx:114 | the count of leading white-space characters: all of them are white space, the next one is not |
| JsString.Trailing | components/Task.tsx:114 | the count of trailing white-space characters: all of them are white space, the one before is not |
| JsString.KeptEnd | components/Task.tsx:114 | everything after the kept part is white space, and the kept part ends in a non-space |
| JsString.Trim | components/Task.tsx:114 | `trim` keeps the slice between the leading and trailing white space; it is empty exactly for an all-space string, and otherwise starts and ends with a non-space |
| JsString.TrimIsTheSlice | components/Task.tsx:114 | any slice with only white space around it and non-space ends is what `trim` returns |
| JsString.TrimIdempotent | components/Task.tsx:114 | trimming twice is trimming once |
| JsString.PaddedSpace | components/Task.tsx:114 | white space around white space is white space |
| JsString.TrimIgnoresPadding | components/Task.tsx:114 | white space added around a string does not change its trim |
| TaskItem.RenameTarget | components/Task.tsx:114-119 | a rename is issued exactly when the trimmed name is non-empty and differs from the current name, and it carries the trimmed name |
| TaskItem.RenameTargetSettles | components/Task.tsx:114-116 | the sent name has no surrounding white space, and re-submitting it once it is the task name sends nothing |
| TaskItem.UntouchedPaddedNameRenames | components/Task.tsx:114-116 | a task name with surrounding white space (and something else) submitted untouched is renamed to its trimmed form |
| TaskItem.PaddingIsNoRename | components/Task.tsx:114-118 | for a task name with no surrounding white space, only white space or white space around the unchanged name sends no rename |
| TaskItem.TaskView.constructor | components/Task.tsx:30-46 | not editing, edited name is the task name; a completed task takes its stored offset, or draws and stores one |
| TaskItem.TaskView.ReceiveProps | components/Task.tsx:49-66 | a new task name resets the edited name; a task that became completed takes its stored offset or draws and stores one |
| TaskItem.TaskView.Click | components/Task.tsx:68-93 | clicks on controls arm nothing; any other click re-arms the toggle with the completion shown now |
| TaskItem.TaskView.ToggleTimerFires | components/Task.tsx:80-92 | sends the opposite of the captured completion; completing stores a new offset, un-completing removes the stored one |
| TaskItem.TaskView.DoubleClick | components/Task.tsx:95-102 | clears the armed toggle and enters editing |
| TaskItem.TaskView.Change | components/Task.tsx:138-141 | typing sets the edited name |
| TaskItem.TaskView.Submit | components/Task.tsx:113-121 | a rename with the trimmed name exactly when it is non-empty and changed; otherwise the edited name resets; editing always ends |
| TaskItem.TaskView.Cancel | components/Task.tsx:147-150 | Escape ends editing and resets the edited name, with no rename |
| TaskItem.TaskView.KeyDown | components/Task.tsx:104-111 | Enter submits: a rename with the trimmed name exactly when it is non-empty and changed, otherwise the edited name resets; Escape cancels without a rename; other keys change nothing |
| TaskItem.TaskView.EditorKeyDown | components/Task.tsx:143-151 | Enter without Shift submits, with the rename payload and reset of `handleSubmit`; Escape cancels; Shift+Enter and other keys change nothing |
| TaskItem.TaskView.DeleteButton | components/Task.tsx:198-204 | the delete button asks to delete this task and arms no toggle |
| TaskItem.TaskView.Blur | components/Task.tsx:142 | leaving the editor submits it: a rename with the trimmed name when it is non-empty and changed, otherwise the edited name resets; editing ends |
| TaskItem.DoubleClickCancelsToggle | components/Task.tsx:68-102 | a double click sends no toggle, leaves completion, name, edited name and offsets alone, and opens the editor |
| TaskItem.ClickTogglesOnce | components/Task.tsx:68-92 | a single click sends the opposite of the completion shown at the click; un-completing clears the stored offset and keeps the shown one, completing takes the drawn offset and stores it; completion, name and editor are unchanged until the dashboard's new props arrive |

## Left out

- The HTTP calls themselves, session checks and redirects (app/dashboard/page.tsx:44-54), and the server routes under `app/api/`. They wrap a database client and password hashing that are not part of this model. The server is only an ok/failure reply.
- Local and session storage as I/O, and a malformed saved order on which `JSON.parse` would throw. The saved order is a parsed sequence of ids, or none.
- Stale closures. Most handlers read `lists` from their closure, so two handlers completing out of order could overwrite each other. Each handler is modelled as atomic on the current state.
- Handler wiring. The masonry grid ignores `items` and `onReorder`, and no drag context is rendered, so `handleDragEnd` and `handleReorder` are never called. `components/TodoList.tsx` renders its own task rows (components/TodoList.tsx:85-110) instead of the `Task` component, and neither declares nor forwards `onRenameTask` (components/TodoList.tsx:12-22), so `handleRenameTask` and all of `components/Task.tsx` are unreachable as well. Inside `components/Task.tsx`, `handleKeyDown` (components/Task.tsx:104-111) is attached to no element; only the text area's inline key handler (components/Task.tsx:143-151) is. All of them are modelled as written.
- `components/MasonryGrid.tsx`, `components/TodoList.tsx`, `components/Header.tsx`, the `components/ui/` primitives other than the dialog, `app/page.tsx`, `app/layout.tsx` and `app/register/page.tsx`: layout and presentation, with no state logic.
- The dialog's own logic (components/ui/modal.tsx:18-30). It keeps its own input text. Every mounted dialog, even a closed one, listens for keys on the whole window: Enter submits the text when the dialog is open, and Escape calls `onClose` whether or not it is open. On the dashboard, Escape anywhere on the page therefore closes both creation dialogs, and with them the task dialog's target list. The model takes the submitted text as the parameter of `CreateList` and `CreateTask`, and closing as the `Close…Modal` methods.
- The slant of the strike-through (`Math.atan2` on `lineOffset`), `isAnimating`, and textarea auto-height. These are presentation; the random draw is a parameter.
- The 200 ms delay itself. The timer is an armed/not-armed field, and its firing is a separate step.
- DashboardPage.Dashboard.DragEnd: a drop with no `over` target would throw on `over.id` and is not modelled.
- DashboardPage.DragEndLists: on an empty list of lists, `arrayMove([], -1, -1)` would yield `[undefined]`. The model leaves the lists unchanged instead, since no list can be dragged when none is shown.
- DashboardPage.Dashboard.ReorderLists: the id sequence must name current lists, as the non-null assertion `!` promises. An id with no list would put `undefined` into the lists.
- TaskItem.TaskView.Click: whether the click target is a button, an input, or the editor (which stops the click) is a boolean parameter, not the DOM.
- The `sessionStorage` stores offsets as strings. Reading back a stored `"0"` is still found, because a non-empty string is truthy. The model stores integers directly.
