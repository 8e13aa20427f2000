# To-do list controller, modelled in Dafny

This project models the state controller of a browser to-do list manager
(`App()` in `src/App.js`). The controller holds three things. The first is
the list collection; each list embeds an ordered copy of its tasks. The
second is a flat task collection. The third is a set of three filter
toggles (show completed, show incomplete, show overdue). From these it
derives:

- two filtered task projections;
- the per-list completed-task counts that feed a pie chart;
- the list that the current route path `/lists/<id>` makes active.

Its handlers add lists and tasks, edit and complete tasks, remove tasks and
lists, and rename lists. Each one changes only the list, and the task, whose
identifier matches.

Modules, one per part of the controller:

- `Wrappers`: `Option`. `None` stands for JavaScript's `undefined`, and for
  NaN where a number is expected.
- `Seqs`: `Array.prototype.filter` (`Filter`) and the order-preserving
  subsequence relation.
- `Model`: the `Task` and `List` records, and `lists.find` by identifier
  (`FindList`).
- `Views`: `filteredTasks` and `findOverdueTasks`.
- `Chart`: the `completedTasksCount` dictionary, built by a loop, and the
  chart's labels and data.
- `Routing`: `pathname.split('lists/')[1]`, `Number(...)`, and the
  active-list lookup.
- `Handlers`: the new list collection that each handler computes, as a pure
  function. Lemmas relate these functions to each other and to the
  active-list lookup.
- `AppState`: the class `App`, with the controller's state as fields and
  one method per handler.

Some inputs become parameters:

- The answers of `window.prompt` and `window.confirm` are method
  parameters: `Option<string>` and `bool`.
- The wall clock `new Date()` is a parameter `now`.
- A task's due date is `Option<int>`, in milliseconds. `None` stands for an
  absent or unparsable date, which compares false and so is never overdue.
  A `null` date is the instant 0 (`new Date(null)` is the epoch), so an
  unfinished task with a `null` date is overdue.

The effect that re-derives the active list whenever the lists or the path
change is run at the end of every `App` method that changes either. The
invariant `App.Valid()` states that `activeItem` is always the list that
the path selects.

Facts about the program that the model makes explicit:

- `onCompleteTask` (src/App.js:129-141) and `onAddTask` (src/App.js:76-84)
  update only the embedded copies inside `lists`. `findOverdueTasks`
  (src/App.js:63-69) and the completed counts behind the chart
  (src/App.js:161-170) read the flat `tasks`. So a task completed after
  loading stays in the overdue projection and out of the chart counts.
  `App.CompleteTask` modifies only `lists` and `activeItem`, so the flat
  tasks are unchanged.
- `onEditListTitle` (src/App.js:151-159) assigns any title, the empty one
  included.
- `onRemoveTask` (src/App.js:114-122) filters out every task carrying the
  identifier. That is one entry only when task identifiers are unique in the
  list (`Handlers.RemoveUniqueTaskDropsOne`).
- The chart value for a list with no completed task is `undefined`
  (src/App.js:186), written `None`, not 0.
- The handlers assign fields of the existing list and task objects inside
  `map` (src/App.js:79, 97, 118, 134, 154). The model treats records as
  values. `Handlers.FindAfterUpdate` shows that re-deriving the active list
  gives what the object shared through `activeItem` (src/App.js:198) shows.

## Model

| member | source | states |
|---|---|---|
| Seqs.Filter | src/App.js:251 | `filter` keeps exactly the elements that satisfy the callback, in their original order, as a subsequence; all pass gives the input, none pass gives the empty sequence |
| Seqs.FilterCount | src/App.js:118 | after `filter` each element keeps its multiplicity if it passes, and is absent otherwise |
| Seqs.FilterDropsOne | src/App.js:118 | when exactly one element fails the callback, `filter` shortens the sequence by exactly one |
| Model.FindList | src/App.js:197 | `find` by identifier returns None exactly when no list has the identifier; otherwise it returns the list at the first position with that identifier |
| Model.FindListAt | src/App.js:197 | `find` returns the list at the first position carrying the identifier |
| Model.FindListUnique | src/App.js:197 | with unique identifiers, `find` returns the one list that has the identifier |
| Views.FilteredTasks | src/App.js:50-61 | the rule table: both toggles on gives all tasks in order; both off gives none. Completed only gives exactly the completed tasks whose list exists; incomplete only gives exactly the unfinished tasks whose list exists. The result is always an order-preserving subsequence |
| Views.FilteredTasksCount | src/App.js:50-61 | each task keeps its multiplicity exactly when it passes the rule table |
| Views.OverdueTasksCount | src/App.js:63-69 | each task keeps its multiplicity exactly when the toggle is on and the task is unfinished and past due; otherwise it is absent |
| Views.OverdueTasks | src/App.js:63-69 | toggle off gives none. Toggle on gives exactly the unfinished tasks with a due instant strictly before `now`, in order; the other two toggles play no part |
| Chart.CompletedInIsFilterLength | src/App.js:161-170 | the per-list completed count equals the length of the filter that keeps that list's completed tasks |
| Chart.CompletedTasksCount | src/App.js:161-170 | the dictionary has an entry exactly for the lists with at least one completed task, and each entry is that list's number of completed tasks |
| Chart.BuildChartData | src/App.js:181-186 | one label and one value per list, in list order. The label is the list's name. The value is the completed count, or `undefined` when that count is zero |
| Routing.FirstOccurrence | src/App.js:195 | the leftmost position where `lists/` occurs, or None exactly when it occurs nowhere |
| Routing.SecondPiece | src/App.js:195 | `split('lists/')[1]` is `undefined` exactly when the path has no `lists/`. Otherwise it is the text after the first `lists/`, up to the next `lists/` in that text or to its end, and contains no `lists/` |
| Routing.NumberOfNumberString | src/App.js:197 | `Number` of `${id}` is `id` for every integer identifier, negative ones included |
| Routing.NumberString | src/App.js:255 | `${id}` is a non-empty string without the letter `l`, made of digits exactly when `id` is non-negative |
| Routing.NumberLeadingZero | src/App.js:197 | a leading zero changes neither whether `Number` gives a value nor which value |
| Routing.DecimalValueLeadingZero | src/App.js:197 | a digit string and the same string with a leading zero have the same decimal value |
| Routing.DecimalString | src/App.js:255 | `${id}` for a non-negative identifier is a non-empty digit string without a leading zero whose decimal value is the identifier |
| Routing.ActiveList | src/App.js:194-200 | a path without `lists/` makes no list active; an active list is always one of the lists |
| Routing.FirstOccurrenceAfterFree | src/App.js:195 | in `<prefix>lists/<rest>` with no `lists/` in the prefix, the first occurrence is right after the prefix; no occurrence straddles the boundary |
| Routing.WithoutLIsFree | src/App.js:195 | a string without the letter `l` (a rendered number, for one) contains no `lists/` |
| Routing.ActiveListOfListsPath | src/App.js:194-200 | the path `<prefix>lists/<piece>`, with no `lists/` in the prefix and no `l` in the piece, makes active the first list whose identifier is `Number(piece)`, or none when that is NaN or no list has it |
| Routing.ActiveListOfDigitsPath | src/App.js:194-200 | the path `<prefix>lists/<digits>` makes active the first list whose identifier is the digits' value, or none if there is no such list |
| Routing.NavigateToList | src/App.js:194-200 | with unique identifiers, after navigating to `/lists/${list.id}` the derived active list is that list, tasks included, for negative identifiers too |
| Handlers.AddTask | src/App.js:76-84 | the matching lists gain the task at the end of their tasks, with the earlier tasks kept; names, colours and identifiers are kept; the other lists are unchanged |
| Handlers.EditTaskText | src/App.js:93-104 | inside the matching lists only the text of the tasks with the task identifier changes, to the new text; task counts are kept; the other lists are unchanged |
| Handlers.RemoveTask | src/App.js:116-122 | the matching lists keep exactly their tasks whose identifier differs, in order; the other lists are unchanged |
| Handlers.CompleteTask | src/App.js:130-141 | inside the matching lists only the completion flag of the matching tasks changes, to `completed`; identifier, text, list and due date are kept; the other lists are unchanged |
| Handlers.RemoveTaskCount | src/App.js:118 | in a matching list each task keeps its multiplicity unless it has the removed identifier, in which case it is absent |
| Handlers.RemoveListCount | src/App.js:251 | each list keeps its multiplicity unless it has the removed identifier, in which case it is absent |
| Handlers.EditListTitle | src/App.js:151-159 | the matching lists take the new name and keep identifier, colour and tasks; the other lists are unchanged |
| Handlers.RemoveList | src/App.js:250-253 | exactly the lists with the identifier are dropped and the rest keep their order; nothing changes when no list has it |
| Handlers.CompleteTaskUndo | src/App.js:129-141 | setting a task's flag to the opposite and back gives back the same lists |
| Handlers.CompleteTaskLastWins | src/App.js:129-141 | of two completions of the same task, the later one decides |
| Handlers.RemoveTaskIdempotent | src/App.js:114-122 | removing the same task twice is the same as removing it once |
| Handlers.RemoveUniqueTaskDropsOne | src/App.js:114-122 | with task identifiers unique in the list, removal drops exactly one entry from that list |
| Handlers.FindAfterUpdate | src/App.js:197 | after an update that keeps identifiers, `find` returns the list it returned before, with the update applied when it is the updated list |
| Handlers.ActiveListAfterAddTask | src/App.js:194-200 | the active list re-derived after `onAddTask` is the earlier active list, with the task appended when it is the target list |
| AppState.App.constructor | src/App.js:12-19 | starts with empty collections, every toggle off and no active list |
| AppState.App.Load | src/App.js:27-36 | the fetched collections replace the lists and tasks; the toggles and path are kept; the active list is re-derived |
| AppState.App.ToggleShowCompletedTasks | src/App.js:38-40 | flips the show-completed toggle |
| AppState.App.ToggleShowIncompleteTasks | src/App.js:42-44 | flips the show-incomplete toggle |
| AppState.App.ToggleShowOverdueTasks | src/App.js:46-48 | flips the show-overdue toggle |
| AppState.App.Navigate | src/App.js:254-256 | the path changes and the active list becomes the one the new path selects |
| AppState.App.AddList | src/App.js:71-74 | the new list is appended and the existing lists are unchanged |
| AppState.App.AddTask | src/App.js:76-84 | the lists become `Handlers.AddTask` of the old lists; the flat tasks are not touched |
| AppState.App.EditTask | src/App.js:86-104 | a cancelled or empty answer changes nothing; otherwise the lists become `Handlers.EditTaskText` with the answer |
| AppState.App.RemoveTask | src/App.js:114-127 | declining changes nothing; confirming makes the lists `Handlers.RemoveTask` of the old lists |
| AppState.App.CompleteTask | src/App.js:129-149 | the lists become `Handlers.CompleteTask` of the old lists; the flat tasks are not touched |
| AppState.App.EditListTitle | src/App.js:151-159 | the lists become `Handlers.EditListTitle` of the old lists |
| AppState.App.RemoveList | src/App.js:250-253 | the lists become `Handlers.RemoveList` of the old lists |

## Left out

- Network traffic is not modelled:
  - the three GET requests of `fetchData`, which appear only as the
    collections passed to `App.Load`;
  - the PATCH and DELETE requests of the edit, complete and remove
    handlers;
  - the `alert` shown when one of these fails.
  The local state never depends on them: there is no rollback.
- The colour collection is not modelled, because the controller only
  passes it on to the add-list form. A list keeps only its `colorId`.
- `getRandomColor` and the chart's `backgroundColor` are left out because
  they are random. The dataset's constant label, border colour and border
  width are left out because they are presentation.
- Date parsing and the system clock are not modelled. A due date is an
  optional instant, and "now" is a parameter.
- Routing.ToNumber: models `Number` only on digit strings, where the empty
  string gives 0, and on a `+` or `-` followed by digits. Other strings that
  JavaScript would convert are read as NaN: surrounding whitespace,
  hexadecimal, binary or octal prefixes (`0x`, `0b`, `0o`), exponent or
  fractional notation, and `Infinity`. For safe-integer identifiers, such
  strings can come only from hand-typed paths. The sidebar's paths for
  safe-integer identifiers are all in the modelled forms
  (`Routing.NavigateToList`).
- Identifiers and instants are JavaScript doubles, modelled as exact
  unbounded integers. The model holds for safe integers (absolute value at
  most 2^53 - 1). Beyond that `Number` rounds a digit string to the nearest
  double, so a path can select a list whose identifier differs from the
  digits' exact value. From 10^21 on, `${id}` renders in exponent form, so
  the sidebar's paths are digit strings only below that.
- React's scheduling is not modelled: state batching, re-renders, and the
  effect running after a render rather than inside the handler. Toggles
  flip the stored value, so two flips inside one render, which read the
  same stale value in the source, are not distinguished. The initial
  `activeItem` is `[]` until the first effect run; the constructor models the
  state after it.
- The JSX, the `<Route>` matching, the loading placeholder and the
  `./components` children (list sidebar, add-list form, task views, pie
  chart) are not part of this model.
- Records are values. The in-place field assignments inside `map` are
  modelled as building updated records. `Handlers.FindAfterUpdate` shows
  that the re-derived active list agrees with the shared object that the
  source keeps in `activeItem`.
- A `completed` field that is absent is read as `false`, so the flag is a
  plain boolean.
