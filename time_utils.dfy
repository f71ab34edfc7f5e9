/**
  The time bucketer: classifies a timestamp into one of six relative-time
  sections and groups completed or expired tasks by those sections.

  `now` (what `Date.now()` returns) and `today` (local midnight of the current
  day, what `new Date().setHours(0, 0, 0, 0)` returns) are parameters.
*/
module TimeUtils {
  import opened TodoTypes
  import opened JsBuiltins

  /** The six sections, in the order the list view renders them. */
  datatype TimeSection = Today | ThisWeek | LastWeek | Last30Days | LastYear | All {
    /** Position in the display order, Today first. */
    function Rank(): nat {
      match this
      case Today => 0
      case ThisWeek => 1
      case LastWeek => 2
      case Last30Days => 3
      case LastYear => 4
      case All => 5
    }

    /** The sections chosen by an upper bound on the age. */
    predicate Bounded() {
      this != Today && this != All
    }
  }

  const ONE_WEEK: int := 7 * DAY_MS
  const ONE_MONTH: int := 30 * DAY_MS
  const ONE_YEAR: int := 365 * DAY_MS

  /** The inclusive upper bound on `now - timestamp` of a bounded section. */
  function Threshold(s: TimeSection): int
    requires s.Bounded()
  {
    match s
    case ThisWeek => ONE_WEEK
    case LastWeek => ONE_WEEK * 2
    case Last30Days => ONE_MONTH
    case LastYear => ONE_YEAR
  }

  /**
    `s` is the earliest section, after Today, whose bound admits the age
    `diff`: every earlier bounded section's bound is exceeded, and `s` is
    either All or has a bound that is not.
  */
  predicate IsFirstFit(diff: int, s: TimeSection) {
    && s != Today
    && (s.Bounded() ==> diff <= Threshold(s))
    && (forall b: TimeSection :: b.Bounded() && b.Rank() < s.Rank() ==> diff > Threshold(b))
  }

  /** `getTimeSection`: the first-match cascade over the age of `timestamp`. */
  function GetTimeSection(timestamp: int, now: int, today: int): (r: TimeSection)
    ensures r == Today <==> timestamp >= today
    ensures timestamp < today ==> IsFirstFit(now - timestamp, r)
  {
    var diff := now - timestamp;
    if timestamp >= today then Today
    else if diff <= ONE_WEEK then ThisWeek
    else if diff <= ONE_WEEK * 2 then LastWeek
    else if diff <= ONE_MONTH then Last30Days
    else if diff <= ONE_YEAR then LastYear
    else All
  }

  /** At most one section is the first fit for a given age. */
  lemma FirstFitUnique(diff: int, s1: TimeSection, s2: TimeSection)
    requires IsFirstFit(diff, s1) && IsFirstFit(diff, s2)
    ensures s1 == s2
  {
    if s1.Rank() < s2.Rank() {
      assert s1.Bounded();
    } else if s2.Rank() < s1.Rank() {
      assert s2.Bounded();
    }
  }

  /**
    Before today, an older timestamp never lands in an earlier section than a
    newer one.
  */
  lemma SectionMonotone(newer: int, older: int, now: int, today: int)
    requires older <= newer < today
    ensures GetTimeSection(newer, now, today).Rank() <= GetTimeSection(older, now, today).Rank()
  {
  }

  /**
    Worked cases, with `today` at or before `now` and less than ten days
    earlier: now itself is Today, ten days back is Last Week (the 14-day test
    comes before the 30-day one), twenty days back is Last 30 Days and four
    hundred days back is All.
  */
  lemma SectionExamples(now: int, today: int)
    requires today <= now < today + 10 * DAY_MS
    ensures GetTimeSection(now, now, today) == Today
    ensures GetTimeSection(now - 10 * DAY_MS, now, today) == LastWeek
    ensures GetTimeSection(now - 20 * DAY_MS, now, today) == Last30Days
    ensures GetTimeSection(now - 400 * DAY_MS, now, today) == All
  {
  }

  /**
    The timestamp a task is grouped by: its completion time on the Completed
    tab, its expiry time otherwise.
  */
  function StampOf(t: Todo, status: Status): Option<int> {
    if status == Completed then t.completedAt else Some(t.expiresAt)
  }

  /** The task has a truthy timestamp to group by. */
  predicate Stamped(t: Todo, status: Status) {
    Truthy(StampOf(t, status))
  }

  /** The task is grouped into section `s`. */
  predicate InSection(t: Todo, status: Status, s: TimeSection, now: int, today: int) {
    Stamped(t, status) && GetTimeSection(StampOf(t, status).value, now, today) == s
  }

  function StampedP(status: Status): Todo -> bool {
    t => Stamped(t, status)
  }

  function InSectionP(status: Status, s: TimeSection, now: int, today: int): Todo -> bool {
    t => InSection(t, status, s, now, today)
  }

  /** The tasks section `s` is meant to hold, in input order. */
  function SectionTasks(tasks: seq<Todo>, status: Status, s: TimeSection, now: int, today: int): seq<Todo> {
    Filter(tasks, InSectionP(status, s, now, today))
  }

  /** The record of six task lists, one per section, that grouping fills. */
  datatype Sections = Sections(
    today: seq<Todo>,
    thisWeek: seq<Todo>,
    lastWeek: seq<Todo>,
    last30Days: seq<Todo>,
    lastYear: seq<Todo>,
    all: seq<Todo>)
  {
    /** The list of section `s`: `sections[s]`. */
    function Get(s: TimeSection): seq<Todo> {
      match s
      case Today => today
      case ThisWeek => thisWeek
      case LastWeek => lastWeek
      case Last30Days => last30Days
      case LastYear => lastYear
      case All => all
    }

    /** `sections[s].push(t)`. */
    function Push(s: TimeSection, t: Todo): (r: Sections)
      ensures r.Get(s) == Get(s) + [t]
      ensures forall other: TimeSection :: other != s ==> r.Get(other) == Get(other)
    {
      match s
      case Today => this.(today := today + [t])
      case ThisWeek => this.(thisWeek := thisWeek + [t])
      case LastWeek => this.(lastWeek := lastWeek + [t])
      case Last30Days => this.(last30Days := last30Days + [t])
      case LastYear => this.(lastYear := lastYear + [t])
      case All => this.(all := all + [t])
    }
  }

  /**
    `groupTasksByTime`: starts from six empty sections and pushes each task
    with a truthy timestamp onto the section its timestamp falls in.
  */
  method GroupTasksByTime(tasks: seq<Todo>, status: Status, now: int, today: int)
    returns (sections: Sections)
    ensures forall s: TimeSection :: sections.Get(s) == SectionTasks(tasks, status, s, now, today)
  {
    sections := Sections([], [], [], [], [], []);
    assert tasks[..0] == [];
    var i := 0;
    while i < |tasks|
      invariant 0 <= i <= |tasks|
      invariant forall s: TimeSection :: sections.Get(s) == SectionTasks(tasks[..i], status, s, now, today)
    {
      var task := tasks[i];
      GroupingStep(tasks, i, status, now, today, sections);
      var timestamp := StampOf(task, status);
      if Truthy(timestamp) {
        var section := GetTimeSection(timestamp.value, now, today);
        sections := sections.Push(section, task);
      }
      i := i + 1;
    }
    assert tasks[..|tasks|] == tasks;
  }

  /** Section `s` of `tasks[..i + 1]` is that of `tasks[..i]`, plus `tasks[i]` if it belongs there. */
  lemma SectionGrowsByOne(tasks: seq<Todo>, i: nat, status: Status, s: TimeSection, now: int, today: int)
    requires i < |tasks|
    ensures SectionTasks(tasks[..i + 1], status, s, now, today)
         == SectionTasks(tasks[..i], status, s, now, today)
            + (if InSection(tasks[i], status, s, now, today) then [tasks[i]] else [])
  {
    assert tasks[..i + 1] == tasks[..i] + [tasks[i]];
    FilterConcat(tasks[..i], [tasks[i]], InSectionP(status, s, now, today));
    assert [tasks[i]][1..] == [];
  }

  /** One iteration of the grouping loop keeps every section equal to its specification. */
  lemma GroupingStep(tasks: seq<Todo>, i: nat, status: Status, now: int, today: int, sections: Sections)
    requires i < |tasks|
    requires forall s: TimeSection :: sections.Get(s) == SectionTasks(tasks[..i], status, s, now, today)
    ensures Truthy(StampOf(tasks[i], status)) ==>
      var pushed := sections.Push(GetTimeSection(StampOf(tasks[i], status).value, now, today), tasks[i]);
      forall s: TimeSection :: pushed.Get(s) == SectionTasks(tasks[..i + 1], status, s, now, today)
    ensures !Truthy(StampOf(tasks[i], status)) ==>
      forall s: TimeSection :: sections.Get(s) == SectionTasks(tasks[..i + 1], status, s, now, today)
  {
    var task := tasks[i];
    var stamp := StampOf(task, status);
    if Truthy(stamp) {
      var section := GetTimeSection(stamp.value, now, today);
      var pushed := sections.Push(section, task);
      forall s: TimeSection
        ensures pushed.Get(s) == SectionTasks(tasks[..i + 1], status, s, now, today)
      {
        SectionGrowsByOne(tasks, i, status, s, now, today);
        if s == section {
          assert InSection(task, status, s, now, today);
        } else {
          assert !InSection(task, status, s, now, today);
        }
      }
    } else {
      forall s: TimeSection
        ensures sections.Get(s) == SectionTasks(tasks[..i + 1], status, s, now, today)
      {
        SectionGrowsByOne(tasks, i, status, s, now, today);
        assert !InSection(task, status, s, now, today);
      }
    }
  }

  /**
    A task lands in a section exactly when its timestamp is truthy and
    classifies into that section; a task without one lands nowhere.
  */
  lemma TaskLandsInItsSection(tasks: seq<Todo>, i: nat, status: Status, s: TimeSection, now: int, today: int)
    requires i < |tasks|
    ensures tasks[i] in SectionTasks(tasks, status, s, now, today)
        <==> Stamped(tasks[i], status) && GetTimeSection(StampOf(tasks[i], status).value, now, today) == s
  {
  }

  /** Grouping is stable: the sections of a concatenation are the concatenated sections. */
  lemma SectionsStable(a: seq<Todo>, b: seq<Todo>, status: Status, s: TimeSection, now: int, today: int)
    ensures SectionTasks(a + b, status, s, now, today)
         == SectionTasks(a, status, s, now, today) + SectionTasks(b, status, s, now, today)
  {
    FilterConcat(a, b, InSectionP(status, s, now, today));
  }

  /** Total size of the six sections. */
  function GroupedCount(tasks: seq<Todo>, status: Status, now: int, today: int): nat {
    |SectionTasks(tasks, status, Today, now, today)|
    + |SectionTasks(tasks, status, ThisWeek, now, today)|
    + |SectionTasks(tasks, status, LastWeek, now, today)|
    + |SectionTasks(tasks, status, Last30Days, now, today)|
    + |SectionTasks(tasks, status, LastYear, now, today)|
    + |SectionTasks(tasks, status, All, now, today)|
  }

  /** The sections together hold every task with a truthy timestamp, each once. */
  lemma {:induction false} SectionsCoverStamped(tasks: seq<Todo>, status: Status, now: int, today: int)
    ensures GroupedCount(tasks, status, now, today) == |Filter(tasks, StampedP(status))|
  {
    if tasks != [] {
      SectionsCoverStamped(tasks[1..], status, now, today);
    }
  }
}
