/**
  The task record and the three display statuses shared by the controller,
  the time bucketer and the task row.

  Timestamps are integer milliseconds since the epoch, as `Date.now()` gives them.
*/
module TodoTypes {

  datatype Option<T> = None | Some(value: T)

  /**
    One task. `completedAt` and `order` are the optional fields of the record;
    the optional `repeatInterval` field is never read or written by the
    application and is not carried.
  */
  datatype Todo = Todo(
    id: string,
    title: string,
    completed: bool,
    createdAt: int,
    expiresAt: int,
    completedAt: Option<int>,
    isRecurring: bool,
    order: Option<int>)

  /** The three tabs of the list, and the status a row is rendered with. */
  datatype Status = Active | Completed | Expired

  /** Milliseconds in a minute, an hour (60 minutes) and a day (24 hours). */
  const MINUTE_MS: int := 60000
  const HOUR_MS: int := 3600000
  const DAY_MS: int := 86400000

  /**
    JavaScript truthiness of an optional number: `undefined` and `0` are both
    falsy (NaN, the other falsy number, never arises from integer arithmetic).
  */
  predicate Truthy(x: Option<int>) {
    x.Some? && x.value != 0
  }

  /** The tab a task belongs to at time `now`: the filter of the list view. */
  predicate InTab(t: Todo, tab: Status, now: int) {
    match tab
    case Active => !t.completed && t.expiresAt > now
    case Completed => t.completed
    case Expired => !t.completed && t.expiresAt <= now
  }

  /** The status of a task at time `now`, derived from its fields alone. */
  function StatusOf(t: Todo, now: int): Status {
    if t.completed then Completed
    else if t.expiresAt > now then Active
    else Expired
  }

  /** A task shows in exactly one tab: the one its derived status names. */
  lemma InTabIffStatus(t: Todo, tab: Status, now: int)
    ensures InTab(t, tab, now) <==> StatusOf(t, now) == tab
  {
  }

  /** No two tasks share an id (what `crypto.randomUUID` provides in practice). */
  predicate UniqueIds(todos: seq<Todo>) {
    forall i, j :: 0 <= i < j < |todos| ==> todos[i].id != todos[j].id
  }

  /**
    A task is marked completed exactly when it carries a completion time:
    completing sets both, re-adding and the recurring sweep clear both.
  */
  predicate CompletionConsistent(todos: seq<Todo>) {
    forall i :: 0 <= i < |todos| ==> (todos[i].completed <==> todos[i].completedAt.Some?)
  }

  /** Some task of `todos` has id `id`. */
  predicate HasId(todos: seq<Todo>, id: string) {
    exists i :: 0 <= i < |todos| && todos[i].id == id
  }
}
