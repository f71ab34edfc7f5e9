/**
  The task lifecycle controller: the list of tasks and the settings record held
  as component state, the transforms each user action applies to the list, the
  recurring-task sweep, the three tab filters and the drag-end reorder.

  Each transform is a pure function from the old list to the new one; the
  class `TodoApp` holds the state and replaces it with the transform's result,
  as each `setTodos` / `setSettings` call does. `now` and fresh ids are
  parameters.
*/
module App {
  import opened TodoTypes
  import opened JsBuiltins

  /** The cooldown after which a completed recurring task reopens: one day, `24 * 60 * 60 * 1000`. */
  const ONE_DAY_MS: int := DAY_MS

  datatype Settings = Settings(
    defaultTimeLimit: int,   // hours a new, reset or re-added task has before it expires
    showTimeRemaining: bool,
    showTimeCompleted: bool,
    showTimeExpired: bool)

  const DEFAULT_SETTINGS: Settings := Settings(24, true, true, true)

  /** `now + hours * 60 * 60 * 1000`: the deadline a time limit of `hours` gives. */
  function ExpiryAfter(now: int, hours: int): int {
    now + hours * HOUR_MS
  }

  // ---------------------------------------------------------------------------
  // Updating the tasks that match

  /** `todos.map(t => selected(t) ? update(t) : t)`. */
  function UpdateWhere(todos: seq<Todo>, selected: Todo -> bool, update: Todo -> Todo): (r: seq<Todo>)
    ensures |r| == |todos|
    ensures forall i :: 0 <= i < |r| ==> r[i] == if selected(todos[i]) then update(todos[i]) else todos[i]
  {
    if todos == [] then []
    else [if selected(todos[0]) then update(todos[0]) else todos[0]] + UpdateWhere(todos[1..], selected, update)
  }

  function HasIdP(id: string): Todo -> bool {
    (t: Todo) => t.id == id
  }

  function OtherIdP(id: string): Todo -> bool {
    (t: Todo) => t.id != id
  }

  // ---------------------------------------------------------------------------
  // The user actions

  /**
    `addTodo`: a title that is empty once trimmed changes nothing; any other
    appends one open, non-recurring task with the trimmed title, created now
    and expiring after the configured time limit.
  */
  function AddTodo(todos: seq<Todo>, title: string, id: string, now: int, hours: int): (r: seq<Todo>)
    ensures Trim(title) == [] ==> r == todos
    ensures Trim(title) != [] ==> |r| == |todos| + 1 && r[..|todos|] == todos
    ensures Trim(title) != [] ==>
      var t := r[|todos|];
      && t.id == id && t.title == Trim(title)
      && !t.completed && !t.isRecurring
      && t.createdAt == now && t.expiresAt == now + hours * HOUR_MS
      && t.completedAt == None && t.order == None
  {
    if Trim(title) == [] then todos
    else todos + [Todo(id, Trim(title), false, now, ExpiryAfter(now, hours), None, false, None)]
  }

  /** A title of nothing but whitespace adds nothing. */
  lemma AddBlankTitle(todos: seq<Todo>, id: string, now: int, hours: int)
    ensures AddTodo(todos, "", id, now, hours) == todos
    ensures AddTodo(todos, "   ", id, now, hours) == todos
  {
    assert forall k :: 0 <= k < |"   "| ==> IsJsWhitespace("   "[k]);
  }

  /** " x " adds one task titled "x". */
  lemma AddPaddedTitle(todos: seq<Todo>, id: string, now: int, hours: int)
    ensures AddTodo(todos, " x ", id, now, hours) == todos + [Todo(id, "x", false, now, ExpiryAfter(now, hours), None, false, None)]
  {
    assert !IsJsWhitespace('x');
    assert " x "[1..] == "x ";
    assert LeadingWhitespace(" x ") == 1;
    assert " x "[..2] == " x";
    assert TrailingWhitespace(" x ") == 1;
    assert " x "[1..2] == "x";
  }

  /** With a fresh id, adding keeps the ids unique. */
  lemma AddTodoKeepsIdsUnique(todos: seq<Todo>, title: string, id: string, now: int, hours: int)
    requires UniqueIds(todos) && !HasId(todos, id)
    ensures UniqueIds(AddTodo(todos, title, id, now, hours))
  {
  }

  /** With a positive time limit, the new task is on the Active tab. */
  lemma AddedTaskIsActive(todos: seq<Todo>, title: string, id: string, now: int, hours: int)
    requires Trim(title) != [] && hours > 0
    ensures InTab(AddTodo(todos, title, id, now, hours)[|todos|], Active, now)
  {
  }

  /** `completeTodo`: marks the tasks with `id` completed now; nothing else changes. */
  function CompleteTodo(todos: seq<Todo>, id: string, now: int): (r: seq<Todo>)
    ensures |r| == |todos|
    ensures forall i :: 0 <= i < |r| && todos[i].id != id ==> r[i] == todos[i]
    ensures forall i :: 0 <= i < |r| && todos[i].id == id ==>
      r[i] == todos[i].(completed := true, completedAt := Some(now))
  {
    UpdateWhere(todos, HasIdP(id), (t: Todo) => t.(completed := true, completedAt := Some(now)))
  }

  /** `deleteTodo`: drops the tasks with `id` and keeps the others, in order. */
  function DeleteTodo(todos: seq<Todo>, id: string): (r: seq<Todo>)
    ensures forall i :: 0 <= i < |r| ==> r[i].id != id
    ensures multiset(r) <= multiset(todos)
    ensures forall i :: 0 <= i < |todos| && todos[i].id != id ==> todos[i] in r
    ensures |r| + |Filter(todos, HasIdP(id))| == |todos|
    ensures !HasId(todos, id) ==> r == todos
  {
    FilterComplement(todos, OtherIdP(id), HasIdP(id));
    Filter(todos, OtherIdP(id))
  }

  /** Deleting from a concatenation deletes from each part: the survivors keep their order. */
  lemma DeleteTodoStable(a: seq<Todo>, b: seq<Todo>, id: string)
    ensures DeleteTodo(a + b, id) == DeleteTodo(a, id) + DeleteTodo(b, id)
  {
    FilterConcat(a, b, OtherIdP(id));
  }

  /** `resetTodo`: gives the tasks with `id` a fresh deadline; nothing else changes. */
  function ResetTodo(todos: seq<Todo>, id: string, now: int, hours: int): (r: seq<Todo>)
    ensures |r| == |todos|
    ensures forall i :: 0 <= i < |r| && todos[i].id != id ==> r[i] == todos[i]
    ensures forall i :: 0 <= i < |r| && todos[i].id == id ==>
      r[i] == todos[i].(expiresAt := now + hours * HOUR_MS)
  {
    UpdateWhere(todos, HasIdP(id), (t: Todo) => t.(expiresAt := ExpiryAfter(now, hours)))
  }

  /** The task a re-add or a recurring sweep reopens: open again, with a fresh deadline. */
  function Reopened(t: Todo, now: int, hours: int): Todo {
    t.(completed := false, completedAt := None, expiresAt := ExpiryAfter(now, hours))
  }

  /**
    `readdTodo`: reopens the tasks with `id`, clearing the completion and
    giving a fresh deadline; nothing else changes.
  */
  function ReaddTodo(todos: seq<Todo>, id: string, now: int, hours: int): (r: seq<Todo>)
    ensures |r| == |todos|
    ensures forall i :: 0 <= i < |r| && todos[i].id != id ==> r[i] == todos[i]
    ensures forall i :: 0 <= i < |r| && todos[i].id == id ==>
      r[i] == todos[i].(completed := false, completedAt := None, expiresAt := now + hours * HOUR_MS)
  {
    UpdateWhere(todos, HasIdP(id), t => Reopened(t, now, hours))
  }

  /** With a positive time limit, a re-added task is on the Active tab. */
  lemma ReaddMakesActive(todos: seq<Todo>, id: string, now: int, hours: int, i: nat)
    requires hours > 0 && i < |todos| && todos[i].id == id
    ensures InTab(ReaddTodo(todos, id, now, hours)[i], Active, now)
    ensures StatusOf(ReaddTodo(todos, id, now, hours)[i], now) == Active
  {
  }

  /** Completing then re-adding a task leaves it open, on the Active tab, expiring after now. */
  lemma CompleteThenReadd(todos: seq<Todo>, id: string, now: int, hours: int, i: nat)
    requires hours > 0 && i < |todos| && todos[i].id == id
    ensures var t := ReaddTodo(CompleteTodo(todos, id, now), id, now, hours)[i];
      !t.completed && t.completedAt == None && t.expiresAt > now && StatusOf(t, now) == Active
  {
  }

  /** `toggleRepeat`: flips `isRecurring` on the tasks with `id`; nothing else changes. */
  function ToggleRepeat(todos: seq<Todo>, id: string): (r: seq<Todo>)
    ensures |r| == |todos|
    ensures forall i :: 0 <= i < |r| && todos[i].id != id ==> r[i] == todos[i]
    ensures forall i :: 0 <= i < |r| && todos[i].id == id ==>
      r[i] == todos[i].(isRecurring := !todos[i].isRecurring)
  {
    UpdateWhere(todos, HasIdP(id), (t: Todo) => t.(isRecurring := !t.isRecurring))
  }

  /** Toggling twice restores the list. */
  lemma ToggleRepeatTwice(todos: seq<Todo>, id: string)
    ensures ToggleRepeat(ToggleRepeat(todos, id), id) == todos
  {
    var once := ToggleRepeat(todos, id);
    var twice := ToggleRepeat(once, id);
    assert forall i :: 0 <= i < |todos| ==> twice[i] == todos[i];
  }

  // ---------------------------------------------------------------------------
  // The recurring sweep

  /** A completed recurring task whose completion is at least a day old. */
  predicate DueForReopen(t: Todo, now: int) {
    t.isRecurring && t.completed && Truthy(t.completedAt) && now - t.completedAt.value >= ONE_DAY_MS
  }

  function DueP(now: int): Todo -> bool {
    t => DueForReopen(t, now)
  }

  /** `recurringTodos.some(rt => rt.id === t.id)`. */
  function SharesIdP(due: seq<Todo>): Todo -> bool {
    (t: Todo) => HasId(due, t.id)
  }

  /**
    The recurring-task effect: collects the due tasks and, if there are any,
    reopens every task sharing an id with one of them.
  */
  function SweepRecurring(todos: seq<Todo>, now: int, hours: int): (r: seq<Todo>)
    ensures |r| == |todos|
    ensures forall i :: 0 <= i < |r| ==> r[i] == todos[i] || r[i] == Reopened(todos[i], now, hours)
    ensures forall i :: 0 <= i < |r| && DueForReopen(todos[i], now) ==> r[i] == Reopened(todos[i], now, hours)
    ensures forall i :: 0 <= i < |r| ==> !DueForReopen(r[i], now)
  {
    var due := Filter(todos, DueP(now));
    if |due| > 0 then UpdateWhere(todos, SharesIdP(due), t => Reopened(t, now, hours))
    else todos
  }

  /** With unique ids, the sweep reopens exactly the due tasks and leaves the rest alone. */
  lemma SweepReopensExactlyDue(todos: seq<Todo>, now: int, hours: int)
    requires UniqueIds(todos)
    ensures var r := SweepRecurring(todos, now, hours);
      forall i :: 0 <= i < |todos| ==>
        r[i] == if DueForReopen(todos[i], now) then Reopened(todos[i], now, hours) else todos[i]
  {
    var due := Filter(todos, DueP(now));
    forall i | 0 <= i < |todos| && HasId(due, todos[i].id)
      ensures DueForReopen(todos[i], now)
    {
      var j :| 0 <= j < |due| && due[j].id == todos[i].id;
      FilterFromInput(todos, DueP(now), j);
      var k :| 0 <= k < |todos| && todos[k] == due[j];
      assert k == i;
    }
  }

  /** A second sweep at the same time changes nothing. */
  lemma SweepIdempotent(todos: seq<Todo>, now: int, hours: int)
    ensures SweepRecurring(SweepRecurring(todos, now, hours), now, hours) == SweepRecurring(todos, now, hours)
  {
    var r := SweepRecurring(todos, now, hours);
    assert forall i :: 0 <= i < |r| ==> !DueP(now)(r[i]);
    FilterNone(r, DueP(now));
  }

  /**
    A recurring task completed a day and a millisecond ago reopens; one
    completed 23 hours ago stays completed.
  */
  lemma SweepCooldownExamples(t: Todo, now: int, hours: int)
    requires t.isRecurring && t.completed
    requires now - ONE_DAY_MS - 1 != 0 && now - 23 * HOUR_MS != 0
    ensures SweepRecurring([t.(completedAt := Some(now - ONE_DAY_MS - 1))], now, hours)
         == [Reopened(t, now, hours)]
    ensures SweepRecurring([t.(completedAt := Some(now - 23 * HOUR_MS))], now, hours)
         == [t.(completedAt := Some(now - 23 * HOUR_MS))]
  {
    var late := t.(completedAt := Some(now - ONE_DAY_MS - 1));
    assert DueForReopen(late, now);
    assert Reopened(late, now, hours) == Reopened(t, now, hours);
  }

  // ---------------------------------------------------------------------------
  // The tab filters

  function InTabP(tab: Status, now: int): Todo -> bool {
    t => InTab(t, tab, now)
  }

  /** `filteredTodos`: the tasks on tab `tab` at time `now`, in list order. */
  function FilteredTodos(todos: seq<Todo>, tab: Status, now: int): (r: seq<Todo>)
    ensures forall i :: 0 <= i < |r| ==> InTab(r[i], tab, now)
    ensures multiset(r) <= multiset(todos)
    ensures forall i :: 0 <= i < |todos| && InTab(todos[i], tab, now) ==> todos[i] in r
  {
    Filter(todos, InTabP(tab, now))
  }

  /** Every task is on exactly one of the three tabs. */
  lemma TabsPartitionTask(t: Todo, now: int)
    ensures InTab(t, Active, now) || InTab(t, Completed, now) || InTab(t, Expired, now)
    ensures !(InTab(t, Active, now) && InTab(t, Completed, now))
    ensures !(InTab(t, Active, now) && InTab(t, Expired, now))
    ensures !(InTab(t, Completed, now) && InTab(t, Expired, now))
  {
  }

  /** The three tabs split the list: together they hold every task exactly once. */
  lemma TabsPartitionList(todos: seq<Todo>, now: int)
    ensures |FilteredTodos(todos, Active, now)| + |FilteredTodos(todos, Completed, now)|
          + |FilteredTodos(todos, Expired, now)| == |todos|
    ensures multiset(FilteredTodos(todos, Active, now)) + multiset(FilteredTodos(todos, Completed, now))
          + multiset(FilteredTodos(todos, Expired, now)) == multiset(todos)
  {
    var active, completed, expired := FilteredTodos(todos, Active, now), FilteredTodos(todos, Completed, now),
      FilteredTodos(todos, Expired, now);
    FilterPartition3(todos, InTabP(Active, now), InTabP(Completed, now), InTabP(Expired, now));
    assert |multiset(active) + multiset(completed) + multiset(expired)| == |multiset(todos)|;
  }

  // ---------------------------------------------------------------------------
  // Drag-end reorder

  /** The two splices: remove the item at `from`, reinsert it before `to`. */
  function MoveItem(items: seq<Todo>, from: nat, to: nat): (r: seq<Todo>)
    requires from < |items|
    ensures |r| == |items| && multiset(r) == multiset(items)
    ensures r[if to < |items| - 1 then to else |items| - 1] == items[from]
  {
    InsertAt(RemoveAt(items, from), to, items[from])
  }

  /**
    `items.findIndex(item => item.id === t.id)` written into `order` when found:
    only `order` changes, it becomes the first position in `items` that holds
    the task's id, and a task whose id is not in `items` is left as it was.
  */
  function WithOrderFrom(t: Todo, items: seq<Todo>): (r: Todo)
    ensures r == t.(order := r.order)
    ensures HasId(items, t.id) ==>
      && r.order.Some? && 0 <= r.order.value < |items| && items[r.order.value].id == t.id
      && forall k :: 0 <= k < r.order.value ==> items[k].id != t.id
    ensures !HasId(items, t.id) ==> r == t
  {
    var k := FindIndex(items, HasIdP(t.id));
    if k != -1 then t.(order := Some(k)) else t
  }

  /**
    The `todos.map` that writes each task's position in `items` into its
    `order`: the list keeps its length, only `order` changes, a task whose id
    is in `items` gets the first position holding that id, the others are
    unchanged.
  */
  function AssignOrder(todos: seq<Todo>, items: seq<Todo>): (r: seq<Todo>)
    ensures |r| == |todos|
    ensures forall i :: 0 <= i < |r| ==> r[i] == todos[i].(order := r[i].order)
    ensures forall i :: 0 <= i < |r| && HasId(items, todos[i].id) ==>
      && r[i].order.Some? && 0 <= r[i].order.value < |items| && items[r[i].order.value].id == todos[i].id
      && forall k :: 0 <= k < r[i].order.value ==> items[k].id != todos[i].id
    ensures forall i :: 0 <= i < |r| && !HasId(items, todos[i].id) ==> r[i] == todos[i]
  {
    seq(|todos|, i requires 0 <= i < |todos| => WithOrderFrom(todos[i], items))
  }

  /**
    `handleDragEnd`: with no destination nothing changes; otherwise the tab's
    list has its item moved from `source` to the destination and every task
    gets its new position as `order`. Only `order` ever changes.
  */
  function DragEnd(todos: seq<Todo>, tab: Status, now: int, source: nat, destination: Option<nat>): (r: seq<Todo>)
    requires destination.Some? ==> source < |FilteredTodos(todos, tab, now)|
    ensures destination.None? ==> r == todos
    ensures |r| == |todos|
    ensures forall i :: 0 <= i < |r| ==> r[i] == todos[i].(order := r[i].order)
  {
    if destination.None? then todos
    else AssignOrder(todos, MoveItem(FilteredTodos(todos, tab, now), source, destination.value))
  }

  /** A task on the tab is found in the reordered list. */
  lemma OnTabFoundAfterMove(todos: seq<Todo>, tab: Status, now: int, source: nat, destination: nat, i: nat)
    requires source < |FilteredTodos(todos, tab, now)|
    requires i < |todos| && InTab(todos[i], tab, now)
    ensures HasId(MoveItem(FilteredTodos(todos, tab, now), source, destination), todos[i].id)
  {
    var items := FilteredTodos(todos, tab, now);
    var moved := MoveItem(items, source, destination);
    assert todos[i] in items;
    assert todos[i] in multiset(moved);
    var j :| 0 <= j < |moved| && moved[j] == todos[i];
  }

  /** With unique ids, an entry of the reordered list carrying a task's id is that task. */
  lemma FoundAfterMoveIsSame(todos: seq<Todo>, tab: Status, now: int, source: nat, destination: nat, i: nat, k: nat)
    requires UniqueIds(todos)
    requires source < |FilteredTodos(todos, tab, now)|
    requires i < |todos|
    requires k < |FilteredTodos(todos, tab, now)|
    ensures var moved := MoveItem(FilteredTodos(todos, tab, now), source, destination);
      moved[k].id == todos[i].id ==> moved[k] == todos[i] && InTab(todos[i], tab, now)
  {
    var items := FilteredTodos(todos, tab, now);
    var moved := MoveItem(items, source, destination);
    assert moved[k] in multiset(items);
    var m :| 0 <= m < |items| && items[m] == moved[k];
    FilterFromInput(todos, InTabP(tab, now), m);
    var j :| 0 <= j < |todos| && todos[j] == moved[k];
    assert moved[k].id == todos[i].id ==> j == i;
  }

  /**
    With unique ids, a drop moves the tab's list to a permutation of itself;
    each task on the tab gets as `order` the position it now has there, and
    the tasks on other tabs are unchanged.
  */
  lemma DragEndReorders(todos: seq<Todo>, tab: Status, now: int, source: nat, destination: nat)
    requires UniqueIds(todos)
    requires source < |FilteredTodos(todos, tab, now)|
    ensures var items := FilteredTodos(todos, tab, now);
      var moved := MoveItem(items, source, destination);
      var r := DragEnd(todos, tab, now, source, Some(destination));
      && multiset(moved) == multiset(items)
      && (forall i :: 0 <= i < |todos| && !InTab(todos[i], tab, now) ==> r[i] == todos[i])
      && (forall i :: 0 <= i < |todos| && InTab(todos[i], tab, now) ==>
            r[i].order.Some? && 0 <= r[i].order.value < |moved| && moved[r[i].order.value] == todos[i])
  {
    var items := FilteredTodos(todos, tab, now);
    var moved := MoveItem(items, source, destination);
    var r := DragEnd(todos, tab, now, source, Some(destination));
    forall i | 0 <= i < |todos|
      ensures !InTab(todos[i], tab, now) ==> r[i] == todos[i]
      ensures InTab(todos[i], tab, now) ==>
        r[i].order.Some? && 0 <= r[i].order.value < |moved| && moved[r[i].order.value] == todos[i]
    {
      if InTab(todos[i], tab, now) {
        OnTabFoundAfterMove(todos, tab, now, source, destination, i);
        FoundAfterMoveIsSame(todos, tab, now, source, destination, i, r[i].order.value);
      } else {
        forall k | 0 <= k < |moved| ensures moved[k].id != todos[i].id {
          FoundAfterMoveIsSame(todos, tab, now, source, destination, i, k);
        }
      }
    }
  }

  // ---------------------------------------------------------------------------
  // The completion invariant: `completed` and `completedAt` change together

  lemma AddKeepsCompletionConsistent(todos: seq<Todo>, title: string, id: string, now: int, hours: int)
    requires CompletionConsistent(todos)
    ensures CompletionConsistent(AddTodo(todos, title, id, now, hours))
  {
  }

  lemma CompleteKeepsCompletionConsistent(todos: seq<Todo>, id: string, now: int)
    requires CompletionConsistent(todos)
    ensures CompletionConsistent(CompleteTodo(todos, id, now))
  {
  }

  lemma DeleteKeepsCompletionConsistent(todos: seq<Todo>, id: string)
    requires CompletionConsistent(todos)
    ensures CompletionConsistent(DeleteTodo(todos, id))
  {
    var r := DeleteTodo(todos, id);
    forall i | 0 <= i < |r|
      ensures r[i].completed <==> r[i].completedAt.Some?
    {
      assert r[i] in multiset(todos);
      var j :| 0 <= j < |todos| && todos[j] == r[i];
    }
  }

  lemma ResetKeepsCompletionConsistent(todos: seq<Todo>, id: string, now: int, hours: int)
    requires CompletionConsistent(todos)
    ensures CompletionConsistent(ResetTodo(todos, id, now, hours))
  {
  }

  lemma ReaddKeepsCompletionConsistent(todos: seq<Todo>, id: string, now: int, hours: int)
    requires CompletionConsistent(todos)
    ensures CompletionConsistent(ReaddTodo(todos, id, now, hours))
  {
  }

  lemma ToggleKeepsCompletionConsistent(todos: seq<Todo>, id: string)
    requires CompletionConsistent(todos)
    ensures CompletionConsistent(ToggleRepeat(todos, id))
  {
  }

  lemma SweepKeepsCompletionConsistent(todos: seq<Todo>, now: int, hours: int)
    requires CompletionConsistent(todos)
    ensures CompletionConsistent(SweepRecurring(todos, now, hours))
  {
  }

  lemma DragEndKeepsCompletionConsistent(todos: seq<Todo>, tab: Status, now: int, source: nat, destination: Option<nat>)
    requires CompletionConsistent(todos)
    requires destination.Some? ==> source < |FilteredTodos(todos, tab, now)|
    ensures CompletionConsistent(DragEnd(todos, tab, now, source, destination))
  {
  }

  // ---------------------------------------------------------------------------
  // The component state

  /** The state of the application component: the list, the settings and the open tab. */
  class TodoApp {
    var todos: seq<Todo>
    var settings: Settings
    var activeTab: Status

    /** The saved list and settings when present, the empty list and the defaults otherwise. */
    constructor (savedTodos: Option<seq<Todo>>, savedSettings: Option<Settings>)
      ensures todos == (if savedTodos.Some? then savedTodos.value else [])
      ensures settings == (if savedSettings.Some? then savedSettings.value else DEFAULT_SETTINGS)
      ensures activeTab == Active
    {
      todos := if savedTodos.Some? then savedTodos.value else [];
      settings := if savedSettings.Some? then savedSettings.value else DEFAULT_SETTINGS;
      activeTab := Active;
    }

    method OnAdd(title: string, id: string, now: int)
      modifies this
      ensures todos == AddTodo(old(todos), title, id, now, settings.defaultTimeLimit)
      ensures settings == old(settings) && activeTab == old(activeTab)
    {
      todos := AddTodo(todos, title, id, now, settings.defaultTimeLimit);
    }

    method OnComplete(id: string, now: int)
      modifies this
      ensures todos == CompleteTodo(old(todos), id, now)
      ensures settings == old(settings) && activeTab == old(activeTab)
    {
      todos := CompleteTodo(todos, id, now);
    }

    method OnDelete(id: string)
      modifies this
      ensures todos == DeleteTodo(old(todos), id)
      ensures settings == old(settings) && activeTab == old(activeTab)
    {
      todos := DeleteTodo(todos, id);
    }

    method OnReset(id: string, now: int)
      modifies this
      ensures todos == ResetTodo(old(todos), id, now, settings.defaultTimeLimit)
      ensures settings == old(settings) && activeTab == old(activeTab)
    {
      todos := ResetTodo(todos, id, now, settings.defaultTimeLimit);
    }

    method OnReadd(id: string, now: int)
      modifies this
      ensures todos == ReaddTodo(old(todos), id, now, settings.defaultTimeLimit)
      ensures settings == old(settings) && activeTab == old(activeTab)
    {
      todos := ReaddTodo(todos, id, now, settings.defaultTimeLimit);
    }

    method OnToggleRepeat(id: string)
      modifies this
      ensures todos == ToggleRepeat(old(todos), id)
      ensures settings == old(settings) && activeTab == old(activeTab)
    {
      todos := ToggleRepeat(todos, id);
    }

    /** The recurring-task effect, run after the list or the time limit changes. */
    method RunRecurringSweep(now: int)
      modifies this
      ensures todos == SweepRecurring(old(todos), now, settings.defaultTimeLimit)
      ensures settings == old(settings) && activeTab == old(activeTab)
    {
      var due := Filter(todos, DueP(now));
      if |due| > 0 {
        todos := SweepRecurring(todos, now, settings.defaultTimeLimit);
      }
    }

    method HandleTimeLimitChange(hours: int)
      modifies this
      ensures settings == old(settings).(defaultTimeLimit := hours)
      ensures todos == old(todos) && activeTab == old(activeTab)
    {
      settings := settings.(defaultTimeLimit := hours);
    }

    method HandleTimeRemainingChange(show: bool)
      modifies this
      ensures settings == old(settings).(showTimeRemaining := show)
      ensures todos == old(todos) && activeTab == old(activeTab)
    {
      settings := settings.(showTimeRemaining := show);
    }

    method HandleTimeCompletedChange(show: bool)
      modifies this
      ensures settings == old(settings).(showTimeCompleted := show)
      ensures todos == old(todos) && activeTab == old(activeTab)
    {
      settings := settings.(showTimeCompleted := show);
    }

    method HandleTimeExpiredChange(show: bool)
      modifies this
      ensures settings == old(settings).(showTimeExpired := show)
      ensures todos == old(todos) && activeTab == old(activeTab)
    {
      settings := settings.(showTimeExpired := show);
    }

    /** A tab button: switches the list view. */
    method SelectTab(tab: Status)
      modifies this
      ensures activeTab == tab
      ensures todos == old(todos) && settings == old(settings)
    {
      activeTab := tab;
    }

    /**
      `handleDragEnd`: copies the open tab's list, splices the dragged item out
      of it and back in at the destination, and writes each task's new
      position into its `order`.
    */
    method HandleDragEnd(source: nat, destination: Option<nat>, now: int)
      requires destination.Some? ==> source < |FilteredTodos(todos, activeTab, now)|
      modifies this
      ensures todos == DragEnd(old(todos), old(activeTab), now, source, destination)
      ensures settings == old(settings) && activeTab == old(activeTab)
    {
      if destination.None? {
        return;
      }
      var items := FilteredTodos(todos, activeTab, now);
      var reorderedItem := items[source];
      items := items[..source] + items[source + 1..];
      var at := if destination.value < |items| then destination.value else |items|;
      items := items[..at] + [reorderedItem] + items[at..];
      todos := AssignOrder(todos, items);
    }
  }
}
