# Grid editor, status board and task lists — a verified model

This project models the three stateful components of a small Angular
application:

- The **home grid** (`Home`, with its pure column topology in `Layout`). It has
  20 rows and 29 columns: column 0 is the index column, 1..10 are label columns,
  and 11..28 are six (input, input, select) triplets.
  - One cell is selected and moves with the arrow keys.
  - At most one cell is open in an edit session with a draft value.
  - Alt+Up/Down cycles a select cell through `OK`/`NG`.
  - A confirmation workflow works in two steps. While confirmation mode is on,
    rows whose select value differs from the row's baseline can be marked. A
    final confirmation then makes the marked rows' select values their new
    baseline and flags those rows as finalized.
- The **status board** (`StatusBoard`, with the task-list algebra in
  `Priorities`). All tasks sit in one flat list. Each task carries its column's
  id and a priority. After every change, a column's priorities are renumbered
  to 1..n in stable priority order. Drag and drop is gated by the reject column.
- The **task-management board** (`TaskManagement`). Each column owns a list of
  task strings. Tasks are added, edited (with cancel), deleted and dragged
  between lists under the same reject-column gate.

Shared pieces:
- `DropGating` holds the reject-column gate both boards apply.
- `Text` holds `trim`, the column-id normalisation and the decimal rendering of
  integers.
- `Options` stands in for `null`/`undefined`.

The components are classes whose fields the methods update:
- `Home.HomeGrid`, `StatusBoard.Board` and `TaskManagement.TaskBoard`;
- a class invariant `Valid()` where the component keeps one.

The list algorithms are proved against pure specification functions:
- `Priorities.Renumber` specifies `sortTasksInColumn`.
- `Priorities.TasksByStatus` specifies `getTasksByStatus`.
- `Layout.ColumnAfter`/`RowAfter` specify `moveSelection`.
- `Layout.PromotedRow` specifies the inner loop of `finalConfirm`.

The properties of those functions are then proved as lemmas:
- density of priorities;
- stable order;
- the cycling round trip;
- settled baselines.

## Model

| member | source | states |
|---|---|---|
| Layout.SelectColumnIsTripletChoice | src/app/components/home/home.component.ts:219-225 | on the grid, a column is a select column iff it is the third column of one of the six triplets laid out by the initialisation |
| Layout.SelectColumnsListed | src/app/components/home/home.component.ts:219-225 | the select columns are exactly 13, 16, 19, 22, 25, 28; no index or label column is one |
| Layout.ColumnName | src/app/components/home/home.component.ts:288-295 | the key is empty exactly for the index column |
| Layout.ColumnNameInjective | src/app/components/home/home.component.ts:288-295 | distinct columns have distinct keys (justifies keying a row by column index) |
| Layout.ChangedAfterWrite | src/app/components/home/home.component.ts:341-346 | after writing `v` into a cell, it is changed iff the baseline lacks `v` there; other cells keep their changed status |
| Layout.ComputeMove | src/app/components/home/home.component.ts:142-176 | the `while`-loop move equals the closed forms: Up gives max(0,row−1), Down gives min(19,row+1), Left gives max(11,col−1), Right gives max(11,min(28,col+1)); a horizontal move keeps the row, a vertical one keeps the column; from any column 0..28 a horizontal move lands on a focusable column 11..28 |
| Layout.FocusTargetOf | src/app/components/home/home.component.ts:192-213 | the chooser is focused iff the column is a select column; the edit input only on a focusable grid column |
| Layout.EditInputIsTripletInput | src/app/components/home/home.component.ts:192-213 | the edit input is the target exactly on the two input columns of a triplet; no focus exactly on columns 0..10 |
| Layout.IndexOf | src/app/components/home/home.component.ts:306 | `indexOf`: −1 iff the value is absent, otherwise the first position holding it |
| Layout.CycleOption | src/app/components/home/home.component.ts:306-316 | the result is always one of the options; an absent value goes to index 0 (Down) or to `(n−2) mod n` (Up) |
| Layout.CycleRoundTrip | src/app/components/home/home.component.ts:306-316 | on options without repeats, Down then Up (and Up then Down) gives the value back |
| Layout.SelectOptionsCycle | src/app/components/home/home.component.ts:46 | with `['OK','NG']`: a value outside the options becomes `OK` in both directions, and each option steps to the other |
| Layout.PromoteSelectValues | src/app/components/home/home.component.ts:371-380 | the column loop copies the current value into the baseline on every select column and leaves every other baseline entry as it was |
| Layout.PromotedRowSettles | src/app/components/home/home.component.ts:365-385 | after promotion no select column of the row is changed, and the promoted baseline is unique |
| Layout.BuildRow | src/app/components/home/home.component.ts:57-74 | a row holds exactly the keys 1..28, with the initial label, input and alternating `OK`/`NG` select values |
| Home.InitialGrid | src/app/components/home/home.component.ts:52-78 | the initialisation loop yields one row per grid row, each with exactly the keys 1..28 and their initial values, and one `false` flag per row |
| Home.KeyActionOf | src/app/components/home/home.component.ts:82-140 | the handler's decision: arrows without Alt move; Alt+Up/Down cycles only on a select column outside confirmation mode; the dropdown branch never fires; Enter saves and moves down iff an edit is open; a mark toggles only through the mark gate; Escape cancels iff an edit is open |
| Home.HomeGrid.constructor | src/app/components/home/home.component.ts:50-79 | every row holds the initial values, the baseline equals the data so nothing is changed, all flags are off, the selection is (0,0), and no edit is open |
| Home.HomeGrid.MoveSelection | src/app/components/home/home.component.ts:142-179 | the selection becomes the arrow-key move of the old one and the invariant is kept |
| Home.HomeGrid.FocusSelectedCell | src/app/components/home/home.component.ts:181-216 | on an input column of a grid row an edit session opens on the selected cell with its stored value; otherwise the session is untouched |
| Home.HomeGrid.StartEditing | src/app/components/home/home.component.ts:245-263 | a no-op on columns 0..10; elsewhere it opens the session on (row,col) with the stored value, even on a select column or in confirmation mode; the data is never touched |
| Home.HomeGrid.UpdateDraft | src/app/components/home/home.component.ts:28 | typing replaces only the draft |
| Home.HomeGrid.SaveEditedValue | src/app/components/home/home.component.ts:272-279 | with a session open, the draft goes into exactly the edited cell and the session closes; with none, nothing changes |
| Home.HomeGrid.SaveEditedValueAndMoveDown | src/app/components/home/home.component.ts:266-269 | the save above, then the selection moves one row down (clamped) |
| Home.HomeGrid.CancelEditing | src/app/components/home/home.component.ts:282-285 | the session closes and no cell changes |
| Home.HomeGrid.ChangeSelectValue | src/app/components/home/home.component.ts:298-318 | only that cell changes, to the cycled option, always a member of `['OK','NG']`; only that row's mark and finalized flags are cleared |
| Home.HomeGrid.OnStatusChange | src/app/components/home/home.component.ts:349-353 | exactly that row's mark and finalized flags become false |
| Home.HomeGrid.OnRowClick | src/app/components/home/home.component.ts:321-323 | the selected row index becomes the clicked row |
| Home.HomeGrid.OnCellClick | src/app/components/home/home.component.ts:326-338 | the selection becomes the clicked cell unchecked; the row's mark flips iff select column, confirmation mode, changed, and not finalized; otherwise the marks are unchanged; the invariant is kept |
| Home.HomeGrid.FlipMark | src/app/components/home/home.component.ts:334-337 | once the gate has passed, exactly that row's mark flips and the invariant is kept |
| Home.HomeGrid.ToggleConfirmationMode | src/app/components/home/home.component.ts:356-362 | the mode flips; leaving it clears every mark; finalized flags are never touched |
| Home.HomeGrid.FinalConfirm | src/app/components/home/home.component.ts:365-385 | each marked row ends finalized and unmarked with its select values as the new baseline; unmarked rows' baselines and flags are untouched; data is untouched; the mode ends off, whether or not it was on |
| Home.HomeGrid.HandleKeyboardEvent | src/app/components/home/home.component.ts:81-140 | for each decision of `KeyActionOf`, the state afterwards: the move, the cycled cell with its row's flags reset, the save-and-move-down, the move down, the mark flip, the cancel, or no change at all |
| Home.EditThenCancel | src/app/components/home/home.component.ts:245-285 | open, type, cancel, reopen: every cell and baseline is as before and the reopened draft is the stored value |
| Home.ConfirmTwice | src/app/components/home/home.component.ts:365-385 | two final confirmations have exactly the effect of one: the same finalized flags, no marks, the same promoted baselines, data untouched, mode off |
| Text.Trim | src/app/components/task-management/task-management.component.ts:34 | `trim` never lengthens the string and leaves no white space at either end |
| Text.TrimBlankIff | src/app/components/task-management/task-management.component.ts:34 | a string trims to empty iff it is all white space |
| Text.TrimIdempotent | src/app/components/task-management/task-management.component.ts:34-38 | trimming a trimmed title changes nothing |
| Text.RemoveWhitespace | src/app/components/task-management/task-management.component.ts:35 | the result holds no white space, and an all-white-space string becomes empty |
| Text.ColumnIdFor | src/app/components/task-management/task-management.component.ts:35 | a derived column id ends in `List` and holds no white space |
| Text.NatToStringInjective | src/app/components/home/home.component.ts:60 | different numbers render differently |
| Text.IntToStringInjective | src/app/components/home/home.component.ts:67-72 | different integers render differently |
| DropGating.DropGate | src/app/components/status-board/status-board.component.ts:156-182 | unknown container iff a column is missing; accepted iff both columns exist and neither is a reject column switched off; the in-place reorder check never decides |
| Priorities.FilterMembers | src/app/components/status-board/status-board.component.ts:107-108 | the filter keeps exactly the tasks of the status |
| Priorities.AppendKeepsDense | src/app/components/status-board/status-board.component.ts:236-241 | appending a task of another column leaves a dense column dense |
| Priorities.RemoveKeepsDense | src/app/components/status-board/status-board.component.ts:296 | removing a task of another column leaves a dense column dense |
| Priorities.RemoveCount | src/app/components/status-board/status-board.component.ts:296 | removing a task of the status lowers its count by one, and leaves other statuses' counts alone |
| Priorities.Insert | src/app/components/status-board/status-board.component.ts:109 | inserting a position into a stably sorted list keeps it sorted and adds exactly that position |
| Priorities.SortedIndices | src/app/components/status-board/status-board.component.ts:107-109 | the positions of exactly the tasks of the status, strictly ordered by (priority, list position) |
| Priorities.TasksByStatus | src/app/components/status-board/status-board.component.ts:123-127 | a permutation of exactly the tasks of the status, in nondecreasing priority order |
| Priorities.Renumber | src/app/components/status-board/status-board.component.ts:106-116 | the list's length, order, ids, contents and statuses are kept, and tasks of other statuses are unchanged |
| Priorities.RenumberedUpToStep | src/app/components/status-board/status-board.component.ts:110-115 | each loop step gives exactly the next task of the stable order its rank as priority |
| Priorities.RenumberRanks | src/app/components/status-board/status-board.component.ts:110-115 | the k-th task of the stable order gets priority k+1 |
| Priorities.RenumberDense | src/app/components/status-board/status-board.component.ts:106-116 | afterwards the column's priorities are 1..n, each once |
| Priorities.RenumberFinish | src/app/components/status-board/status-board.component.ts:106-116 | after the last step of the loop the list is exactly `Renumber`, dense, with ids still distinct |
| Priorities.RenumberOrder | src/app/components/status-board/status-board.component.ts:106-116 | a task earlier in the stable order gets the smaller new priority |
| Priorities.RenumberAll | src/app/components/status-board/status-board.component.ts:118-120 | renumbering all columns keeps ids, contents and statuses, and leaves tasks of unlisted statuses alone |
| Priorities.RenumberAllDense | src/app/components/status-board/status-board.component.ts:118-120 | after renumbering all columns, each listed column is dense, even with a repeated column id |
| Priorities.MaxPriority | src/app/components/status-board/status-board.component.ts:233 | `Math.max` is an upper bound attained by some task |
| Priorities.NextPriority | src/app/components/status-board/status-board.component.ts:230-234 | the new priority exceeds every priority of the column, and is 1 for an empty column |
| Priorities.AppendLandsLast | src/app/components/status-board/status-board.component.ts:236-242 | a task appended above its whole column grows the column by one and is renumbered to the column's size |
| Priorities.AppendUnique | src/app/components/status-board/status-board.component.ts:226-241 | appending a task with a fresh id keeps the ids distinct |
| Priorities.IndexOfId | src/app/components/status-board/status-board.component.ts:111 | `findIndex`: −1 iff no task has the id, otherwise the first such position |
| Priorities.RemoveUnique | src/app/components/status-board/status-board.component.ts:296 | removing a task keeps ids distinct and its id gone |
| StatusBoard.FindColumn | src/app/components/status-board/status-board.component.ts:149-154 | `find`: absent iff no column has the id; otherwise the first one with it |
| StatusBoard.ConnectedIdsResolve | src/app/components/status-board/status-board.component.ts:143-154 | an id is offered as a drop target iff a drop resolves it to a column |
| StatusBoard.Reprioritised | src/app/components/status-board/status-board.component.ts:192-197 | reassigning priorities from the reordered list keeps length, ids, contents and statuses |
| StatusBoard.ReprioritisedRank | src/app/components/status-board/status-board.component.ts:192-197 | with distinct ids in the reordered list, its `k`-th task (when on the board) ends with priority `k + 1` |
| StatusBoard.RenumberAllKeepsOrder | src/app/components/status-board/status-board.component.ts:108-121 | renumbering every column keeps the strict priority order of two tasks of one column |
| StatusBoard.InListDropKeepsOrder | src/app/components/status-board/status-board.component.ts:184-221 | after an in-list drop and the final renumbering, of two tasks of one column the earlier in the reordered list has the smaller priority |
| StatusBoard.MoveToColumn | src/app/components/status-board/status-board.component.ts:207-214 | only the moved task changes: it is the same record with the target column as its status |
| StatusBoard.RenumberAllSnoc | src/app/components/status-board/status-board.component.ts:118-120 | renumbering one more column is one more `Renumber` |
| StatusBoard.RenumberAllPrefix | src/app/components/status-board/status-board.component.ts:118-120 | renumbering one more column of the id list is one more `Renumber` |
| StatusBoard.RenumberAllDenseEach | src/app/components/status-board/status-board.component.ts:118-120 | after renumbering all columns, every listed column is dense |
| StatusBoard.InitialColumns | src/app/components/status-board/status-board.component.ts:49-58 | the three initial columns and their ids; only `rejectList` is a reject column, and no column has reject switched on |
| StatusBoard.InitialColumnFlags | src/app/components/status-board/status-board.component.ts:49-58 | a lookup on the initial columns finds `todoList` and `doneList` as plain columns, `rejectList` as a reject column switched off, and nothing for any other id |
| StatusBoard.InitialColumnsGate | src/app/components/status-board/status-board.component.ts:156-182 | on the initial columns a drop is accepted exactly when both its containers are `todoList` or `doneList` |
| StatusBoard.InitialTaskList | src/app/components/status-board/status-board.component.ts:60-100 | the nine initial tasks have distinct ids |
| StatusBoard.Board.constructor | src/app/components/status-board/status-board.component.ts:30-48 | the field initialisers: no columns, no tasks, empty inputs, no edit session |
| StatusBoard.Board.OnInit | src/app/components/status-board/status-board.component.ts:50-103 | the columns are exactly the initial columns; the tasks are the initial list with every column renumbered, so nine tasks with unique ids and every column dense |
| StatusBoard.Board.SortTasksInColumn | src/app/components/status-board/status-board.component.ts:106-116 | the `forEach` loop yields exactly `Renumber`; the column becomes dense |
| StatusBoard.Board.SortTasksInAllColumns | src/app/components/status-board/status-board.component.ts:118-120 | the result is `RenumberAll` over the column ids; every column dense |
| StatusBoard.Board.AddColumn | src/app/components/status-board/status-board.component.ts:130-140 | blank title: nothing changes; otherwise exactly one column with the trimmed title and derived id is appended, with no duplicate-id check |
| StatusBoard.Board.Drop | src/app/components/status-board/status-board.component.ts:148-222 | refused by the gate: tasks unchanged; accepted: the in-list or cross-list update then all columns renumbered, every column dense; ids and contents always kept |
| StatusBoard.Board.Rearrange | src/app/components/status-board/status-board.component.ts:184-221 | the accepted part of the drop, as above |
| StatusBoard.Board.ReprioritiseFrom | src/app/components/status-board/status-board.component.ts:192-197 | the loop yields `Reprioritised` over the whole reordered list; with distinct ids each listed task present on the board gets its place plus one |
| StatusBoard.Board.MoveAcross | src/app/components/status-board/status-board.component.ts:207-218 | the moved task changes column, then source and target are renumbered |
| StatusBoard.Board.AddTask | src/app/components/status-board/status-board.component.ts:225-246 | blank content: nothing changes; otherwise exactly one task (trimmed content, the column's id) is appended, the column grows by one, the new task's priority is the column's size, the column is dense, inputs reset; every column that was dense stays dense |
| StatusBoard.Board.AppendAndSort | src/app/components/status-board/status-board.component.ts:236-242 | the pushed task lands last in its column: the result is `Renumber` of the grown list, the column grows by one, the new task's priority is the column's size, the column is dense, ids stay distinct |
| StatusBoard.Board.ClearNewTaskForm | src/app/components/status-board/status-board.component.ts:243-244 | the new-task inputs return to empty content and priority 1 |
| StatusBoard.Board.EditTask | src/app/components/status-board/status-board.component.ts:249-263 | the session records the task's current values as original and current |
| StatusBoard.Board.SaveTask | src/app/components/status-board/status-board.component.ts:266-274 | the session always closes; content and priority change and the column is renumbered (dense) only when the id exists and the trimmed content is not blank; otherwise tasks unchanged; every dense column stays dense |
| StatusBoard.Board.CancelEdit | src/app/components/status-board/status-board.component.ts:277-289 | no session: no change; otherwise the recorded content and priority return, the task's present column is renumbered and dense, and the session closes; every dense column stays dense (corrected, see Findings) |
| StatusBoard.AppendRenumberKeepsDense | src/app/components/status-board/status-board.component.ts:236-242 | appending a task and renumbering its column keeps every dense column dense |
| StatusBoard.RemoveRenumberKeepsDense | src/app/components/status-board/status-board.component.ts:292-299 | removing a task and renumbering its column keeps every dense column dense |
| StatusBoard.RestoreKeepsDense | src/app/components/status-board/status-board.component.ts:266-289 | writing a task's content and priority and renumbering its column keeps every dense column dense |
| StatusBoard.CancelledAsWritten | src/app/components/status-board/status-board.component.ts:277-289 | `cancelEdit` as written: an unknown id changes nothing; a task moved out of its recorded column keeps the restored priority unrenumbered |
| StatusBoard.CancelAsWrittenBreaksDensity | src/app/components/status-board/status-board.component.ts:277-289 | when another task of the moved task's present column holds the recorded priority, that column is no longer dense |
| StatusBoard.CancelAfterCrossDrop | src/app/components/status-board/status-board.component.ts:199-220 | C alone in a column and listed first, A alone in another, both at priority 1: after `editTask(A)` and a cross-list drop of A into C's column, that column is dense, and cancelling as written leaves it not dense |
| StatusBoard.CancelAsWrittenReachable | src/app/components/status-board/status-board.component.ts:148-220 | the same with C in `doneList` and A in `todoList`, on the initial columns, where that drop passes the gate |
| StatusBoard.Board.DeleteTask | src/app/components/status-board/status-board.component.ts:292-299 | a present id: exactly the first such task is removed, the rest keep their order, the column shrinks by one and is dense; an absent id: no change; every column that was dense stays dense |
| StatusBoard.EditThenCancel | src/app/components/status-board/status-board.component.ts:249-289 | opening and cancelling an edit restores the task's content and only renumbers its column |
| TaskManagement.FindColumnIndex | src/app/components/task-management/task-management.component.ts:50-51 | `find` by id: −1 iff no column has the id, otherwise the first one |
| TaskManagement.ConnectedIdsResolve | src/app/components/task-management/task-management.component.ts:45-51 | an id is offered as a drop target iff a drop resolves it |
| TaskManagement.SpliceOne | src/app/components/task-management/task-management.component.ts:116 | `splice(index, 1)` with its start-index rules: past the end nothing, in range the one entry, negative counted from the end |
| TaskManagement.SpliceRemovesOne | src/app/components/task-management/task-management.component.ts:113-118 | on a valid index the list shrinks by one, keeps the others in order, and loses exactly that entry |
| TaskManagement.OccurrencesUpdate | src/app/components/task-management/task-management.component.ts:49-118 | replacing one column's list changes the board's count of each task string by exactly the difference of the two lists |
| TaskManagement.FindIgnoresData | src/app/components/task-management/task-management.component.ts:103-111 | editing a column's list does not change where an id resolves |
| TaskManagement.InitialColumns | src/app/components/task-management/task-management.component.ts:25-31 | the three initial columns and their ids |
| TaskManagement.TaskBoard.constructor | src/app/components/task-management/task-management.component.ts:18-31 | the initial columns, inputs empty, no edit |
| TaskManagement.TaskBoard.AddColumn | src/app/components/task-management/task-management.component.ts:33-43 | blank title: nothing changes; otherwise exactly one empty column with trimmed title and derived id is appended, and the title input clears |
| TaskManagement.TaskBoard.AddTask | src/app/components/task-management/task-management.component.ts:84-89 | blank task: nothing changes; otherwise the trimmed string goes at the end of that column only, the board gains exactly that one entry, and the input clears |
| TaskManagement.TaskBoard.EditTask | src/app/components/task-management/task-management.component.ts:91-93 | the session records column, index and value |
| TaskManagement.TaskBoard.SaveTask | src/app/components/task-management/task-management.component.ts:95-101 | the session always closes; the entry becomes the trimmed value only when the column exists and the value is not blank; every other entry is unchanged |
| TaskManagement.TaskBoard.CancelEdit | src/app/components/task-management/task-management.component.ts:103-111 | no session: no change; otherwise the recorded value returns to the recorded place, and the session closes |
| TaskManagement.TaskBoard.DeleteTask | src/app/components/task-management/task-management.component.ts:113-118 | unknown id: no change; otherwise that column's list is spliced; on a valid index the board loses exactly that one entry |
| TaskManagement.TaskBoard.Drop | src/app/components/task-management/task-management.component.ts:49-82 | refused by the gate: no change; accepted: only the source and target lists change, to the moved lists, and no task is lost or duplicated |
| TaskManagement.TaskBoard.Rearrange | src/app/components/task-management/task-management.component.ts:72-81 | the two lists are written back and the board's multiset of tasks is preserved |
| TaskManagement.EditOverwriteCancel | src/app/components/task-management/task-management.component.ts:91-111 | edit, overwrite the entry, cancel: the board is exactly as before and the session is closed |

## Left out

- Browser side effects are not modelled:
  - DOM focus;
  - the `setTimeout` deferral (the deferred body of `focusSelectedCell` is the separate `FocusSelectedCell`, and the focus of the edit input in `startEditing` is dropped);
  - `preventDefault`, `@ViewChildren`, `ElementRef` and `Renderer2`;
  - `alert` dialogs.
  The existence of a cell element is taken to be "the coordinate lies on the grid".
- `openSelectDropdown` is not modelled. The Alt+ArrowDown branch that calls it is shadowed by the Alt+Up/Down branch, so it is only recorded in `Home.KeyActionOf` as a decision that never fires.
- `onStatusSelectKeydown` only calls `preventDefault` and changes no state.
- The templates (`*.component.html`) are not part of this model. The edit input's two-way binding is assumed to be `Home.HomeGrid.UpdateDraft`, and each drop list's id is assumed to be its column's id.
- The status-board edit session's `currentContent`/`currentPriority` are recorded but never read by the component, so template edits of them are not modelled.
- The library moves `moveItemInArray`/`transferArrayItem` are not modelled.
  - `StatusBoard.Board.Drop` takes the reordered target list and the moved task's id as parameters.
  - `TaskManagement.TaskBoard.Drop` takes the two resulting lists, which must hold the same entries as before.
- The drop containers of the task-management board are given by column position, as the rendered lists are. Their ids are therefore always known, so the unknown-container refusal cannot arise there. That refusal is proved for the gate itself (`DropGating.DropGate`) and for the status board, whose `Drop` takes container ids.
- `StatusBoard.Board.Drop` omits the third reject check from the method. That check is subsumed by the target check, so it can never fire. `DropGating.DropGate` keeps it and proves it never decides.
- The new task id of the status board (`Date.now()` and `Math.random()`) is a parameter of `StatusBoard.Board.AddTask`, and it must be fresh.
- Task ids on the status board are assumed distinct (`StatusBoard.Board.Valid`). The initial tasks and `AddTask` keep this, and `findIndex` by id relies on it.
- Priorities are integers. JavaScript's floating-point numbers (fractional or non-finite priorities typed into an edit) are not modelled.
- `Text.ToLowerAscii`: `toLowerCase` is modelled on the ASCII letters only, and other characters are kept. The facts used are only that the id ends in `List` and holds no white space.
- TaskManagement.TaskBoard.SaveTask and TaskManagement.TaskBoard.CancelEdit require the index to be within the list where a write happens. JavaScript would instead grow a sparse array for an index past the end, or add a property for a negative one.
- Home.HomeGrid.StartEditing, Home.HomeGrid.ChangeSelectValue, Home.HomeGrid.OnCellClick and Home.HomeGrid.HandleKeyboardEvent require the row they read to be one of the 20 rows (0..19). The source would instead throw a `TypeError` reading `data[row]` for any other row; in `onCellClick` that happens after `selectedCell` has already been set. `StartEditing` also requires a column in 0..28, where the source would open a session whose `editedValue` is `undefined`. Every caller in the templates and the key handling passes a cell of the grid.
- Home.HomeGrid.OnStatusChange requires a grid row. The source would write the two flags at any index, growing the arrays. Its one caller, `changeSelectValue` (home.component.ts:317), has already read `data[row]`.
- The Angular wiring (`app.module.ts`, `app-routing.module.ts`) and the component creation test hold no logic and are not modelled.

## Findings

| source | as written | input that shows it | evidently intended | confidence | as-written member | corrected member |
|---|---|---|---|---|---|---|
| src/app/components/status-board/status-board.component.ts:277-289 | `cancelEdit` restores the recorded priority and renumbers the column recorded when the session opened (`editingTask.statusId`) | `editTask` on A in `todoList` (priority 1); with C listed before A in the task list and alone in `doneList` at 1, drag A into `doneList`, which then holds C at 1 and A at 2; `cancelEdit`: A is back at 1 in `doneList`, which is not renumbered, so A and C both have priority 1 | renumber the column the task is in now, so that every column keeps priorities 1..n | not executed | StatusBoard.CancelledAsWritten, StatusBoard.CancelAsWrittenBreaksDensity, StatusBoard.CancelAfterCrossDrop, StatusBoard.CancelAsWrittenReachable | StatusBoard.Board.CancelEdit |
