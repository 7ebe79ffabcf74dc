# TaskMaster task-list store

TaskMaster is a single-screen Android to-do list. Its only logic is the
state the `TaskMasterApp` composable keeps and the event handlers that change
it. That state is the ordered list `tasks`, the id counter `nextId` (starting
at 1), and the two flags `showDialog` and `isLoading`. The handlers add a
task from the dialog, toggle a task's completion, and delete a task. The
statistics card shows total, completed and pending counts derived from the
list.

The model has four modules:

- `Tasks` (`task.dfy`): the immutable `Task` record, its default completion
  flag, `copy(isCompleted = …)` and value equality.
- `Text` (`text.dfy`): Kotlin's `isBlank`, the test the dialog applies to
  the title before it confirms.
- `TaskList` (`task_list.dfy`): the pure list expressions the handlers
  assign. These are `+` append, `map` with `copy`, `filter` and `count`,
  written as functions on `seq<Task>`. The module also proves the lemmas
  about them: what is kept, the order, the id invariant, idempotence,
  commutation and the counts.
- `TaskMaster` (`task_master.dfy`): the class `TaskListStore`, whose fields
  are the four state variables. Each handler is a method with
  `modifies this`. Each coroutine launched by a handler is one atomic
  method: the state after its last write. `UserSession` is a client that
  walks through add, blank add, toggle and delete, and it checks the
  resulting state using only the handlers' contracts.

The store's invariant `Valid()` says that ids strictly increase along the
list and all lie in `[1, nextId)`. This implies that the ids are pairwise
distinct and that the next id is unused. Every handler preserves it.

The delete handler (MainActivity.kt:108) filters out every task with the
given id. Under the invariant at most one task has that id, and
`TaskList.RemoveAt` proves that when one does, only that task is removed.
The add handler returns nothing. `CommitAdd` hands back the appended task
only so that callers can name it.

## Model

| member | source | states |
|---|---|---|
| `Tasks.NewTask` | app/src/main/java/com/example/taskmaster/Task.kt:5-10 | a task built without a completion flag carries the given id, title and description and is not completed |
| `Tasks.WithCompleted` | app/src/main/java/com/example/taskmaster/Task.kt:5-10 | `copy(isCompleted = c)` keeps id, title and description and sets the flag to `c` |
| `Tasks.CopyTwice` | app/src/main/java/com/example/taskmaster/Task.kt:6-9 | copying with `c` then `c'` equals copying the original with `c'` |
| `Tasks.CopySame` | app/src/main/java/com/example/taskmaster/Task.kt:6-9 | copying with the flag a task already has yields an equal task |
| `Tasks.TaskEquality` | app/src/main/java/com/example/taskmaster/Task.kt:5-10 | two tasks are equal exactly when all four fields are equal |
| `Text.IsBlank` | app/src/main/java/com/example/taskmaster/MainActivity.kt:260 | a title is blank exactly when every character is whitespace (so the empty title is blank) |
| `TaskList.IncreasingIsDistinct` | app/src/main/java/com/example/taskmaster/MainActivity.kt:42 | ids increasing along the list implies they are pairwise distinct |
| `TaskList.AddTask` | app/src/main/java/com/example/taskmaster/MainActivity.kt:126 | the add expression keeps the old list as a prefix and puts exactly one new, uncompleted task with the given id, title and description at the end |
| `TaskList.CounterIdFresh` | app/src/main/java/com/example/taskmaster/MainActivity.kt:126 | when all ids are below the counter, no task has the counter's id, so the new id is fresh |
| `TaskList.AddKeepsIds` | app/src/main/java/com/example/taskmaster/MainActivity.kt:126 | appending under the counter keeps ids increasing and below the counter advanced by one |
| `TaskList.SetCompleted` | app/src/main/java/com/example/taskmaster/MainActivity.kt:98-101 | the toggle map keeps the length, the order, and every id, title and description; it sets the flag to `checked` on tasks with the id and keeps every other flag |
| `TaskList.SetCompletedAbsent` | app/src/main/java/com/example/taskmaster/MainActivity.kt:98-101 | toggling an id no task has leaves the list unchanged |
| `TaskList.SetCompletedAt` | app/src/main/java/com/example/taskmaster/MainActivity.kt:98-101 | with distinct ids, toggling replaces only the task at the id's index, by its copy |
| `TaskList.SetCompletedTwice` | app/src/main/java/com/example/taskmaster/MainActivity.kt:98-101 | of two toggles of one id, the last one wins |
| `TaskList.CheckUncheckRestores` | app/src/main/java/com/example/taskmaster/MainActivity.kt:98-101 | checking then unchecking a task that was open restores the list exactly |
| `TaskList.SetCompletedKeepsIds` | app/src/main/java/com/example/taskmaster/MainActivity.kt:98-101 | toggling keeps the id invariant for the same counter |
| `TaskList.RemoveId` | app/src/main/java/com/example/taskmaster/MainActivity.kt:108 | the filter leaves no task with the id, never grows the list, and is the identity when the id is absent |
| `TaskList.RemoveMembers` | app/src/main/java/com/example/taskmaster/MainActivity.kt:108 | a task is in the filtered list exactly when it was in the list and its id differs |
| `TaskList.RemoveConcat` | app/src/main/java/com/example/taskmaster/MainActivity.kt:108 | filtering a concatenation filters each part; each kept task stays where it was relative to the others |
| `TaskList.RemoveIsSubsequence` | app/src/main/java/com/example/taskmaster/MainActivity.kt:108 | the remaining tasks are a subsequence of the original: the relative order is preserved |
| `TaskList.RemoveAt` | app/src/main/java/com/example/taskmaster/MainActivity.kt:108 | with distinct ids and the id at index k, the result is the list with only index k removed |
| `TaskList.RemoveIdempotent` | app/src/main/java/com/example/taskmaster/MainActivity.kt:108 | removing an id twice has the same effect as removing it once |
| `TaskList.RemoveKeepsIds` | app/src/main/java/com/example/taskmaster/MainActivity.kt:108 | removing keeps ids increasing and below the same counter |
| `TaskList.RemoveSetCompletedCommute` | app/src/main/java/com/example/taskmaster/MainActivity.kt:97-110 | a toggle and a delete give the same list in either order |
| `TaskList.AddSetCompletedCommute` | app/src/main/java/com/example/taskmaster/MainActivity.kt:97-129 | a toggle of any id other than the counter's and an add under the counter give the same list whichever commits first |
| `TaskList.AddRemoveCommute` | app/src/main/java/com/example/taskmaster/MainActivity.kt:103-129 | a delete of any id other than the counter's and an add under the counter give the same list whichever commits first |
| `TaskList.CompletedCount` | app/src/main/java/com/example/taskmaster/MainActivity.kt:75 | the completed count is never negative and at most the total |
| `TaskList.CompletedCountExtremes` | app/src/main/java/com/example/taskmaster/MainActivity.kt:75 | the completed count is 0 exactly when no task is completed and equals the total exactly when all are |
| `TaskList.OpenCount` | app/src/main/java/com/example/taskmaster/MainActivity.kt:157 | the number of open tasks, counted on its own, is at most the total |
| `TaskList.CountsPartition` | app/src/main/java/com/example/taskmaster/MainActivity.kt:157 | completed plus open equals the total, so `total - completed` is the number of open tasks |
| `TaskList.StatsOf` | app/src/main/java/com/example/taskmaster/MainActivity.kt:73-76 | total is the length, completed is at most the total, pending is never negative, equals the open count and makes up the total with completed |
| `TaskList.StatsAfterAdd` | app/src/main/java/com/example/taskmaster/MainActivity.kt:126 | an add raises the total and pending figures by one and leaves the completed figure unchanged |
| `TaskList.StatsAfterToggle` | app/src/main/java/com/example/taskmaster/MainActivity.kt:98-101 | a toggle of a present id changes the completed count by that task's change of flag only |
| `TaskList.StatsAfterRemove` | app/src/main/java/com/example/taskmaster/MainActivity.kt:108 | a remove of a present id lowers the completed count exactly when the removed task was completed |
| `TaskMaster.TaskListStore.Valid` | app/src/main/java/com/example/taskmaster/MainActivity.kt:40-43 | the store invariant implies distinct ids and an unused `nextId` |
| `TaskMaster.TaskListStore.constructor` | app/src/main/java/com/example/taskmaster/MainActivity.kt:40-43 | the screen starts with no tasks, `nextId` 1, dialog closed and not loading, and the invariant holds |
| `TaskMaster.TaskListStore.OpenDialog` | app/src/main/java/com/example/taskmaster/MainActivity.kt:60 | the add button opens the dialog and changes nothing else |
| `TaskMaster.TaskListStore.Dismiss` | app/src/main/java/com/example/taskmaster/MainActivity.kt:120 | dismissing closes the dialog and leaves `tasks`, `nextId` and `isLoading` untouched |
| `TaskMaster.TaskListStore.CommitAdd` | app/src/main/java/com/example/taskmaster/MainActivity.kt:123-129 | a committed add appends one uncompleted task with id = old `nextId`, raises `nextId` by exactly 1, ends not loading with the dialog closed, and keeps the invariant |
| `TaskMaster.TaskListStore.Confirm` | app/src/main/java/com/example/taskmaster/MainActivity.kt:259-263 | the add is committed exactly when the title is not blank; a blank title changes nothing and the dialog stays as it was (open) |
| `TaskMaster.TaskListStore.Toggle` | app/src/main/java/com/example/taskmaster/MainActivity.kt:97-102 | the list becomes the toggle map of the old list; `nextId` and the flags are unchanged; the invariant is kept |
| `TaskMaster.TaskListStore.Delete` | app/src/main/java/com/example/taskmaster/MainActivity.kt:103-111 | the list becomes the filter of the old list; `nextId` and the dialog are unchanged; the commit ends not loading; the invariant is kept |
| `TaskMaster.TaskListStore.CardStats` | app/src/main/java/com/example/taskmaster/MainActivity.kt:73-76 | the card's figures for the current list: total, completed and open counts with total = completed + pending |

## Left out

- The Compose rendering tree (`Scaffold`, `TopAppBar`, `LazyColumn`, `TaskStatsCard`/`StatItem` layout, `TaskItemCard`, colours, icons) only calls the UI toolkit. This includes the check at MainActivity.kt:206 that decides whether a description is shown.
- `MainActivity.onCreate` and the activity lifecycle are platform plumbing.
- Coroutines and the `delay(300)` / `delay(500)` timers are not modelled. Each launched block is one atomic method, and `isLoading` is modelled only as it stands after a commit. Overlapping launches, where one block's `isLoading = false` can hide another that is still pending, depend on interleaving and are not modelled. A pending add can be overtaken by a delete or, once the dialog is dismissed, by a toggle; a delete can be overtaken by a toggle. `TaskList.AddRemoveCommute`, `TaskList.AddSetCompletedCommute` and `TaskList.RemoveSetCompletedCommute` show that for these three pairs the order of commits does not change the list. For the two pairs with an add, this needs the delete or toggle to name an id other than the pending add's. A toggle and a delete commute for any ids.
- A second confirm while the first add is still pending launches a second add. The model can express this as two `CommitAdd` calls but says nothing about timing.
- The text-field editing state inside `AddTaskDialog` is not modelled. Title and description are plain inputs.
- `Confirm`, `Dismiss` and `OpenDialog` do not require any particular dialog state. The UI shows the confirm and dismiss buttons only while `showDialog` is true, but the handlers themselves do not depend on it.
- Text.IsBlank: its whitespace set is the JVM's `Character.isWhitespace` together with `Character.isSpaceChar`, which is what Kotlin's `isWhitespace` uses. Differences between Unicode versions are not modelled (for example U+180E, which older versions count as a space).
- `nextId` is an unbounded integer. The 32-bit wrap-around of `nextId++` after 2^31 - 1 adds is not modelled.
