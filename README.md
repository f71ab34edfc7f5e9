# Ephemeral5 task list — a Dafny model of its logic

Ephemeral5 is a small React task list in which every task has a deadline.
A task is *active* until it is completed or its deadline passes; it is then
listed on the *Completed* or *Expired* tab. A completed task marked
recurring reopens a day after its completion. This project models the
sequential logic underneath the user interface and proves what it promises:

- `time_utils.dfy` (module `TimeUtils`) — `getTimeSection`, the first-match
  cascade that files a timestamp under Today, This Week, Last Week, Last 30
  Days, Last Year or All, and `groupTasksByTime`, the loop that pushes each
  completed or expired task into the section its timestamp falls in.
- `app.dfy` (module `App`) — the controller: the settings record and its
  defaults (`DEFAULT_SETTINGS`, a 24-hour limit with every display flag on),
  `ONE_DAY_MS`, the list transforms behind add / complete / delete / reset /
  re-add / toggle-recurring, the recurring sweep, the three tab filters and
  the drag-end reorder. Each transform is a pure function on the task list;
  the class `TodoApp` holds the component state (`todos`, `settings`, the open
  tab) and each of its methods replaces that state the way the corresponding
  `setTodos` / `setSettings` call does.
- `todo_item.dfy` (module `TodoItem`) — one task row: the "time left" text and
  which lines and buttons the row shows for its tab and the display settings.
- `todo_types.dfy` (module `TodoTypes`) — the task record, the three statuses,
  JavaScript truthiness of an optional number (`undefined` and `0` are both
  absent) and the invariant that a task is completed exactly when it carries
  a completion time, which every list transform preserves.
- `js_builtins.dfy` (module `JsBuiltins`) — the JavaScript built-ins the logic
  leans on: `Array.prototype.filter`, `findIndex`, `splice` (remove one,
  insert one) and `String.prototype.trim` with the ECMAScript whitespace set.

Timestamps are integer milliseconds. The current time `now`, the local
midnight `today` and fresh task ids are parameters. Every property below
is proved for all inputs.

The section boundaries follow the code: the 14-day test comes before the
30-day one, so a timestamp ten days old is filed under Last Week (proved in
`TimeUtils.SectionExamples`).

## Model

| member | source | states |
|---|---|---|
| JsBuiltins.Filter | src/App.tsx:126 | the result holds only elements the predicate accepts, is a sub-multiset of the input, contains every accepted element, and is the input itself when every element is accepted |
| JsBuiltins.FilterConcat | src/utils/timeUtils.ts:41-47 | filtering is stable: the filter of a concatenation is the concatenation of the filters |
| JsBuiltins.FilterComplement | src/App.tsx:126 | what a predicate keeps and what its negation keeps add up to the input, in size and as a multiset |
| JsBuiltins.FilterNone | src/App.tsx:71-78 | a predicate that rejects every element leaves nothing, so a list with nothing due triggers no update |
| JsBuiltins.FilterPartition3 | src/App.tsx:176-188 | three predicates that are exhaustive and pairwise exclusive split the input between their filters, as a multiset |
| JsBuiltins.FindIndex | src/App.tsx:199 | the result is the first index whose element matches, and -1 exactly when no element matches |
| JsBuiltins.RemoveAt | src/App.tsx:194 | removing the element at an in-range index shifts the later elements down by one and drops exactly that one element from the multiset |
| JsBuiltins.InsertAt | src/App.tsx:195 | inserting places the element at the index, or at the end when the index is past it, and shifts the later elements up by one |
| JsBuiltins.Trim | src/App.tsx:95-100 | the trimmed title is empty exactly when the title is all whitespace; otherwise it is the slice between the leading and the trailing whitespace, and it neither starts nor ends with whitespace |
| JsBuiltins.TrimIdempotent | src/App.tsx:100 | trimming an already trimmed title changes nothing |
| TodoTypes.InTabIffStatus | src/App.tsx:176-188 | a task passes a tab's filter exactly when the status derived from its fields is that tab |
| TimeUtils.GetTimeSection | src/utils/timeUtils.ts:3-25 | Today exactly when the timestamp is at or after midnight; before midnight, the first section in display order whose inclusive bound of 7, 14, 30 or 365 days admits the age, else All |
| TimeUtils.FirstFitUnique | src/utils/timeUtils.ts:15-25 | at most one section is the first fit for a given age, so the cascade's answer is the only one |
| TimeUtils.SectionMonotone | src/utils/timeUtils.ts:15-25 | before midnight, an older timestamp never lands in an earlier section than a newer one |
| TimeUtils.SectionExamples | src/utils/timeUtils.ts:3-25 | with midnight at or before now and less than ten days back: now is Today, 10 days back is Last Week, 20 days back is Last 30 Days, 400 days back is All |
| TimeUtils.Sections.Push | src/utils/timeUtils.ts:45 | pushing onto one section appends the task to that section and leaves the other five unchanged |
| TimeUtils.GroupTasksByTime | src/utils/timeUtils.ts:28-50 | every one of the six sections returned holds exactly the tasks whose truthy timestamp (completedAt on Completed, expiresAt otherwise) classifies into it, in input order; all six start empty |
| TimeUtils.SectionGrowsByOne | src/utils/timeUtils.ts:41-47 | one more task extends only the section it belongs to, at the end |
| TimeUtils.GroupingStep | src/utils/timeUtils.ts:41-47 | one loop iteration keeps every section equal to its specification on the prefix processed so far |
| TimeUtils.TaskLandsInItsSection | src/utils/timeUtils.ts:41-47 | a task is in a section exactly when its timestamp is truthy and classifies there; a task without one lands nowhere |
| TimeUtils.SectionsStable | src/utils/timeUtils.ts:41-47 | the sections of a concatenation are the concatenated sections, so relative order is kept |
| TimeUtils.SectionsCoverStamped | src/utils/timeUtils.ts:41-47 | the six section sizes add up to the number of tasks with a truthy timestamp |
| TodoItem.DecimalString | src/components/TodoItem.tsx:50-52 | a number is printed as a non-empty string of digits with no leading zero |
| TodoItem.DecimalRoundTrip | src/components/TodoItem.tsx:50-52 | reading the printed digits back gives the number |
| TodoItem.DecimalStringOfValue | src/components/TodoItem.tsx:50-52 | conversely, digits without a leading zero are exactly the printing of the number they denote |
| TodoItem.SplitTimeLeft | src/components/TodoItem.tsx:46-47 | for a positive time left, minutes are under 60, hours are positive exactly when at least an hour is left, and hours and minutes bracket the time left to the minute |
| TodoItem.SplitUnique | src/components/TodoItem.tsx:46-47 | any hours and minutes that bracket the time left that way are the ones computed |
| TodoItem.ParseMinutesForm | src/components/TodoItem.tsx:52 | the minutes-only text reads back as zero hours and its minutes |
| TodoItem.ParseHoursForm | src/components/TodoItem.tsx:50 | the hours-and-minutes text reads back as its hours and its minutes |
| TodoItem.RemainingTextRoundTrip | src/components/TodoItem.tsx:49-52 | the "time left" text reads back as the hours and minutes it was made from |
| TodoItem.HoursPartShown | src/components/TodoItem.tsx:49-52 | the text has an hours part exactly when hours are positive |
| TodoItem.RemainingTextCanonical | src/components/TodoItem.tsx:49-52 | each run of digits in the text is "0" or starts with a non-zero digit |
| TodoItem.TimeLeftTextUnique | src/components/TodoItem.tsx:44-53 | a text with canonical digit runs that reads back as the time left and has an hours part exactly when at least an hour is left is the rendering of that time left: the promises of `FormatTimeRemaining` determine its text |
| TodoItem.FormatTimeRemaining | src/components/TodoItem.tsx:38-53 | some text exactly when the row is on the Active tab, the task is not completed and time is left; the text reads back as the whole hours and minutes left, names hours exactly when at least an hour is left, and prints every number without leading zeros |
| TodoItem.Row | src/components/TodoItem.tsx:67-224 | complete button only on Active; toggle and reset only on Active and not mid-completion; re-add exactly on Completed and Expired; delete exactly when not mid-completion; the time-left span exactly on Active for an open task with the flag on; the Completed line exactly on Completed with a truthy completedAt and the flag on; the Expired line exactly on Expired with the flag on; draggable exactly when reset shows |
| TodoItem.ActiveRowShowsTimeLeft | src/components/TodoItem.tsx:104-106 | a task that passes the Active filter shows a time-left text when the flag is on |
| App.UpdateWhere | src/App.tsx:118-122 | the `map` that rewrites the selected tasks keeps the length and every unselected task |
| App.AddTodo | src/App.tsx:94-107 | a blank title leaves the list unchanged; otherwise exactly one task is appended after the unchanged list, with the given id, the trimmed title, open, not recurring, created now and expiring after the time limit |
| App.AddBlankTitle | src/App.tsx:95 | an empty title and a title of spaces add nothing |
| App.AddPaddedTitle | src/App.tsx:95-107 | " x " appends one task titled "x" |
| App.AddTodoKeepsIdsUnique | src/App.tsx:98-107 | with a fresh id, ids stay unique |
| App.AddedTaskIsActive | src/App.tsx:94-107 | with a positive time limit the new task passes the Active filter |
| App.CompleteTodo | src/App.tsx:117-123 | length kept; the tasks with the id become completed at now; every other task unchanged |
| App.DeleteTodo | src/App.tsx:125-127 | no task with the id is left; every other task stays; the removed count is the number of tasks with the id; an unknown id changes nothing |
| App.DeleteTodoStable | src/App.tsx:125-127 | deletion keeps the survivors in their order |
| App.ResetTodo | src/App.tsx:129-136 | length kept; only expiresAt of the tasks with the id changes, to now plus the time limit |
| App.ReaddTodo | src/App.tsx:138-150 | length kept; the tasks with the id become open with no completedAt and a fresh deadline; every other task unchanged |
| App.ReaddMakesActive | src/App.tsx:138-150 | with a positive time limit a re-added task is on the Active tab |
| App.CompleteThenReadd | src/App.tsx:117-150 | completing then re-adding a task leaves it open, without completedAt, on the Active tab |
| App.ToggleRepeat | src/App.tsx:152-158 | length kept; only isRecurring of the tasks with the id flips |
| App.ToggleRepeatTwice | src/App.tsx:152-158 | toggling twice restores the list |
| App.SweepRecurring | src/App.tsx:70-92 | length kept; each task is unchanged or reopened; every due task (recurring, completed, truthy completedAt at least a day old) is reopened; no due task is left |
| App.SweepReopensExactlyDue | src/App.tsx:70-92 | with unique ids, exactly the due tasks are reopened and all others are unchanged |
| App.SweepIdempotent | src/App.tsx:70-92 | a second sweep at the same time changes nothing |
| App.SweepCooldownExamples | src/App.tsx:72-77 | a task completed a day and a millisecond ago reopens; one completed 23 hours ago stays completed |
| App.FilteredTodos | src/App.tsx:176-188 | the tab's list holds only tasks on that tab, drawn from the list, and every task on that tab |
| App.TabsPartitionTask | src/App.tsx:176-188 | every task is on exactly one of the three tabs |
| App.TabsPartitionList | src/App.tsx:176-188 | the three tab lists together hold every task exactly once, in size and as a multiset |
| App.MoveItem | src/App.tsx:193-195 | the two splices give a permutation of the tab's list with the dragged task at the destination, clamped to the end |
| App.WithOrderFrom | src/App.tsx:199-203 | only order changes; a task whose id is in the list gets as order the first position holding that id; a task whose id is not there is returned as it was |
| App.AssignOrder | src/App.tsx:198-204 | length kept; only order changes; each task whose id is in the moved list gets as order the first position holding that id; every other task is unchanged |
| App.DragEnd | src/App.tsx:190-207 | no destination changes nothing; a drop keeps the length and changes nothing but order |
| App.OnTabFoundAfterMove | src/App.tsx:193-199 | every task on the tab is found in the moved list |
| App.FoundAfterMoveIsSame | src/App.tsx:193-199 | with unique ids, what the moved list holds under a task's id is that very task, and that task is on the tab |
| App.DragEndReorders | src/App.tsx:190-207 | with unique ids, the moved list is a permutation of the tab's list; each task on the tab gets as order its new index; tasks on other tabs are unchanged |
| App.AddKeepsCompletionConsistent | src/App.tsx:98-107 | a new task is open with no completion time, so "completed exactly when completedAt is present" still holds |
| App.CompleteKeepsCompletionConsistent | src/App.tsx:117-123 | completing sets completed and completedAt together, so the invariant still holds |
| App.DeleteKeepsCompletionConsistent | src/App.tsx:125-127 | deleting keeps only tasks of the list, so the invariant still holds |
| App.ResetKeepsCompletionConsistent | src/App.tsx:129-136 | resetting touches only expiresAt, so the invariant still holds |
| App.ReaddKeepsCompletionConsistent | src/App.tsx:138-150 | re-adding clears completed and completedAt together, so the invariant still holds |
| App.ToggleKeepsCompletionConsistent | src/App.tsx:152-158 | toggling touches only isRecurring, so the invariant still holds |
| App.SweepKeepsCompletionConsistent | src/App.tsx:79-87 | reopening clears completed and completedAt together, so the invariant still holds |
| App.DragEndKeepsCompletionConsistent | src/App.tsx:198-206 | reordering touches only order, so the invariant still holds |
| App.TodoApp.constructor | src/App.tsx:28-49 | the saved list and settings when present, else the empty list and the defaults; the Active tab is open |
| App.TodoApp.OnAdd | src/App.tsx:94-109 | the list becomes the added list under the current time limit; settings and tab unchanged |
| App.TodoApp.OnComplete | src/App.tsx:117-123 | the list becomes the completed list; settings and tab unchanged |
| App.TodoApp.OnDelete | src/App.tsx:125-127 | the list becomes the list without the id; settings and tab unchanged |
| App.TodoApp.OnReset | src/App.tsx:129-136 | the list becomes the reset list under the current time limit; settings and tab unchanged |
| App.TodoApp.OnReadd | src/App.tsx:138-150 | the list becomes the re-added list under the current time limit; settings and tab unchanged |
| App.TodoApp.OnToggleRepeat | src/App.tsx:152-158 | the list becomes the toggled list; settings and tab unchanged |
| App.TodoApp.RunRecurringSweep | src/App.tsx:70-92 | the list becomes the swept list under the current time limit; settings and tab unchanged |
| App.TodoApp.HandleTimeLimitChange | src/App.tsx:160-162 | only the time limit changes, to the value given |
| App.TodoApp.HandleTimeRemainingChange | src/App.tsx:164-166 | only the time-left flag changes |
| App.TodoApp.HandleTimeCompletedChange | src/App.tsx:168-170 | only the completed-time flag changes |
| App.TodoApp.HandleTimeExpiredChange | src/App.tsx:172-174 | only the expired-time flag changes |
| App.TodoApp.SelectTab | src/App.tsx:313-342 | only the open tab changes |
| App.TodoApp.HandleDragEnd | src/App.tsx:190-207 | the list becomes the reordered list of the open tab; settings and tab unchanged |

## Left out

- Loading and saving the list and the settings through `localStorage` and JSON, with their fallbacks, is I/O. The constructor takes the parsed values, or their absence, as parameters.
- All rendering, the tab buttons' styling and the drag-and-drop library's wiring are user interface. The row's visible parts are modelled as the record `RowView`. Dates printed with `toLocaleString` are modelled as the timestamp being printed.
- The settings form is not part of this model. Its 1–168 hour bound exists only as HTML attributes, and the time limit is passed through unchecked, as in the code.
- `crypto.randomUUID`, `Date.now` and local midnight are parameters, and the model uses one `now` per operation. The code reads the clock more often: `filteredTodos` calls `Date.now()` once per task (src/App.tsx:177); `completeTodo` calls it once per task with the id (src/App.tsx:120); `getTimeSection` reads `Date.now()` and local midnight on every call (src/utils/timeUtils.ts:4-5), so `groupTasksByTime` reads them once per task with a timestamp (src/utils/timeUtils.ts:44). Clock movement between these reads is not modelled.
- The completion animation's 750 ms delay before a task is completed is not modelled. Whether the animation is running is an input of `Row`.
- Fractional and NaN hour values are not modelled; the time limit is an integer. `NaN` timestamps are not modelled either, so truthiness is "present and not 0".
- `repeatInterval` is never read or written and is not carried in the task record.
- App.TodoApp.HandleDragEnd: requires an in-range source index when there is a destination. The drag library supplies one. With an out-of-range source, the first `splice` removes nothing, so `undefined` is inserted into the local copy of the tab's list. The `findIndex` search then throws a TypeError on reaching that entry (it reads `id` of `undefined`), which happens for every task not found earlier in the copy. When it happens, the handler stops before `setTodos` and the list is unchanged. Negative indices are not modelled (indices are `nat`).
- App.DragEndReorders: requires unique task ids, which the random UUIDs give in practice. With duplicate ids, the code gives every task sharing an id the position of the first of them.
- App.SweepReopensExactlyDue: requires unique task ids. With duplicate ids, the code also reopens a task that is not due when it shares its id with a due one; `App.SweepRecurring` states what holds without the requirement.
- App.FoundAfterMoveIsSame: requires unique task ids, for the same reason as `App.DragEndReorders`.
- TimeUtils.GroupTasksByTime: the TypeScript signature admits only the Completed and Expired statuses. The model accepts any status and, like the code's conditional, keys on `expiresAt` for anything but Completed. The generic element type is fixed to the task record.
- App.TodoApp.RunRecurringSweep: React's effect scheduling is not modelled. The sweep is a method that runs after the list or the time limit changes.
