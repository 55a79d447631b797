/**
 * The schedule resolver of app.py: which groups of tasks are due on a
 * weekday (`tasks_for_day`) and which day the picker starts on
 * (`default_idx`).
 *
 * The task texts themselves are configuration: `TaskLists` carries the four
 * lists and `IsAppTaskLists` pins their lengths to the ones app.py defines.
 */
module Schedule {

  /** A section heading with the tasks shown under it. */
  datatype Group = Group(section: string, tasks: seq<string>)

  /** `DAILY_TASKS`, `EVERY2_TASKS`, `WEEKLY_TASKS_THU`, `WEEKLY_TASKS_SAT`. */
  datatype TaskLists = TaskLists(
    daily: seq<string>,
    every2: seq<string>,
    thursday: seq<string>,
    saturday: seq<string>)

  /** The lists as app.py defines them: 13 daily, 2 every-2-days, 6 Thursday and 5 Saturday tasks. */
  predicate IsAppTaskLists(lists: TaskLists)
  {
    |lists.daily| == 13 && |lists.every2| == 2 && |lists.thursday| == 6 && |lists.saturday| == 5
  }

  const DailySection: string := "DAILY TASKS"
  const Every2Section: string := "EVERY 2 DAYS"
  const WeeklySection: string := "WEEKLY TASKS"

  /** `EVERY2_DAYS`: the days on which the every-2-days group is shown. */
  const Every2Days: seq<string> := ["Wednesday", "Friday", "Sunday"]

  /** `DAYS`: the days the picker offers, in order. */
  const Days: seq<string> := ["Wednesday", "Thursday", "Friday", "Saturday", "Sunday"]

  /**
   * `tasks_for_day(day)`: the daily group first; then the every-2-days group
   * exactly on Wednesday, Friday and Sunday; then, last, the weekly group of
   * Thursday on "Thursday" and of Saturday on "Saturday". No day gets more
   * than two groups, and a name the picker does not offer gets the daily
   * group alone.
   */
  function TasksForDay(lists: TaskLists, day: string): (groups: seq<Group>)
    ensures 1 <= |groups| <= 2
    ensures groups[0] == Group(DailySection, lists.daily)
    ensures (|groups| == 2 && groups[1] == Group(Every2Section, lists.every2)) <==> day in Every2Days
    ensures groups[|groups| - 1].section == WeeklySection <==> day == "Thursday" || day == "Saturday"
    ensures forall i :: 0 <= i < |groups| - 1 ==> groups[i].section != WeeklySection
    ensures day == "Thursday" ==> groups[|groups| - 1] == Group(WeeklySection, lists.thursday)
    ensures day == "Saturday" ==> groups[|groups| - 1] == Group(WeeklySection, lists.saturday)
    ensures day !in Days ==> groups == [Group(DailySection, lists.daily)]
  {
    var daily := [Group(DailySection, lists.daily)];
    var withEvery2 := if day in Every2Days then daily + [Group(Every2Section, lists.every2)] else daily;
    var withThursday := if day == "Thursday" then withEvery2 + [Group(WeeklySection, lists.thursday)] else withEvery2;
    if day == "Saturday" then withThursday + [Group(WeeklySection, lists.saturday)] else withThursday
  }

  /** Number of task entries over all groups (the sum of the group lengths). */
  function TaskCount(groups: seq<Group>): nat
  {
    if groups == [] then 0 else TaskCount(groups[..|groups| - 1]) + |groups[|groups| - 1].tasks|
  }

  /**
   * The due tasks in the order the page lists them: the groups' tasks one
   * group after the other. Its length is the sum of the group lengths.
   */
  function Due(groups: seq<Group>): (tasks: seq<string>)
    ensures |tasks| == TaskCount(groups)
  {
    if groups == [] then [] else Due(groups[..|groups| - 1]) + groups[|groups| - 1].tasks
  }

  /** A task is due exactly when some group on the page holds it. */
  lemma {:induction false} DueHoldsGroupTasks(groups: seq<Group>, t: string)
    ensures t in Due(groups) <==> exists g :: g in groups && t in g.tasks
  {
    if groups != [] {
      var init := groups[..|groups| - 1];
      DueHoldsGroupTasks(init, t);
      assert forall g :: g in groups <==> g in init || g == groups[|groups| - 1];
    }
  }

  /** Taking one more group appends its tasks. */
  lemma DueAppend(groups: seq<Group>, i: nat)
    requires i < |groups|
    ensures Due(groups[..i + 1]) == Due(groups[..i]) + groups[i].tasks
    ensures TaskCount(groups[..i + 1]) == TaskCount(groups[..i]) + |groups[i].tasks|
  {
    assert groups[..i + 1][..i] == groups[..i];
  }

  /** Number of tasks due on `day` with the lists of app.py: 15, 19, 18 or 13. */
  lemma DueCountByDay(lists: TaskLists, day: string)
    requires IsAppTaskLists(lists)
    ensures TaskCount(TasksForDay(lists, day)) ==
      if day in Every2Days then 15
      else if day == "Thursday" then 19
      else if day == "Saturday" then 18
      else 13
  {
    var groups := TasksForDay(lists, day);
    assert TaskCount(groups[..1]) == |lists.daily| by {
      assert groups[..1][..0] == [];
    }
    if day in Every2Days {
      assert groups[1].tasks == lists.every2;
    } else if day == "Thursday" {
      assert groups[1].tasks == lists.thursday;
    } else if day == "Saturday" {
      assert groups[1].tasks == lists.saturday;
    } else {
      assert groups == groups[..1];
    }
  }

  /** `list.index`: the position of the first occurrence of `x`, which must occur in `s`. */
  function IndexOf<T(==)>(s: seq<T>, x: T): (i: nat)
    requires x in s
    ensures i < |s| && s[i] == x
    ensures forall j :: 0 <= j < i ==> s[j] != x
  {
    if s[0] == x then 0 else 1 + IndexOf(s[1..], x)
  }

  /**
   * `default_idx`: the picker starts on today's name when it is one of the
   * offered days, and on the first day (Wednesday) otherwise.
   */
  function DefaultDayIndex(todayName: string): (idx: nat)
    ensures idx < |Days|
    ensures todayName in Days ==> Days[idx] == todayName
    ensures todayName !in Days ==> idx == 0
  {
    if todayName in Days then IndexOf(Days, todayName) else 0
  }
}
