/**
 * Progress over the session state of app.py: the store of ticks keyed by
 * slug (`st.session_state`), `progress_counts`, the percentage shown, and
 * the "Mark all done" and "Reset today" buttons.
 */
module Progress {
  import opened TaskKeys
  import opened Schedule

  /** `st.session_state.get(key, False)`: a key that is absent reads as not ticked. */
  predicate Ticked(m: map<string, bool>, key: string)
    ensures key !in m ==> !Ticked(m, key)
    ensures key in m ==> (Ticked(m, key) <==> m[key])
  {
    key in m && m[key]
  }

  /** The keys of `tasks` on `day`. */
  function DueKeys(day: string, tasks: seq<string>): set<string>
  {
    set t | t in tasks :: Slug(day, t)
  }

  /**
   * How many entries of `tasks` are ticked on `day`; a task listed twice is
   * counted twice, as the loop of `progress_counts` does. Never more than
   * the number of entries.
   */
  function DoneCount(m: map<string, bool>, day: string, tasks: seq<string>): (n: nat)
    ensures n <= |tasks|
  {
    if tasks == [] then 0
    else DoneCount(m, day, tasks[..|tasks| - 1]) + (if Ticked(m, Slug(day, tasks[|tasks| - 1])) then 1 else 0)
  }

  lemma DoneCountAppend(m: map<string, bool>, day: string, tasks: seq<string>, t: string)
    ensures DoneCount(m, day, tasks + [t]) == DoneCount(m, day, tasks) + (if Ticked(m, Slug(day, t)) then 1 else 0)
  {
    assert (tasks + [t])[..|tasks|] == tasks;
  }

  /** All of `tasks` are done on `day` exactly when each of their keys is ticked. */
  lemma {:induction false} DoneCountIsFull(m: map<string, bool>, day: string, tasks: seq<string>)
    ensures DoneCount(m, day, tasks) == |tasks| <==> forall t :: t in tasks ==> Ticked(m, Slug(day, t))
  {
    if tasks != [] {
      var init := tasks[..|tasks| - 1];
      DoneCountIsFull(m, day, init);
      assert forall t :: t in tasks <==> t in init || t == tasks[|tasks| - 1];
    }
  }

  /** None of `tasks` is done on `day` exactly when none of their keys is ticked. */
  lemma {:induction false} DoneCountIsZero(m: map<string, bool>, day: string, tasks: seq<string>)
    ensures DoneCount(m, day, tasks) == 0 <==> forall t :: t in tasks ==> !Ticked(m, Slug(day, t))
  {
    if tasks != [] {
      var init := tasks[..|tasks| - 1];
      DoneCountIsZero(m, day, init);
      assert forall t :: t in tasks <==> t in init || t == tasks[|tasks| - 1];
    }
  }

  /**
   * The store after writing `value` under every key of `keys`: those keys
   * hold `value`, every other key keeps its entry, and no key is removed.
   */
  function WithAll(m: map<string, bool>, keys: set<string>, value: bool): (r: map<string, bool>)
    ensures r.Keys == m.Keys + keys
    ensures forall k :: k in keys ==> r[k] == value
    ensures forall k :: k in m && k !in keys ==> r[k] == m[k]
  {
    map k | k in m.Keys + keys :: if k in keys then value else m[k]
  }

  lemma DueKeysAppend(day: string, tasks: seq<string>, t: string)
    ensures DueKeys(day, tasks + [t]) == DueKeys(day, tasks) + {Slug(day, t)}
  {
    assert forall u :: u in tasks + [t] <==> u in tasks || u == t;
  }

  lemma WithAllAdd(m: map<string, bool>, keys: set<string>, k: string, value: bool)
    ensures WithAll(m, keys + {k}, value) == WithAll(m, keys, value)[k := value]
  {
  }

  /** Writing `true` under every due key leaves every due task done. */
  lemma MarkAllCompletes(m: map<string, bool>, day: string, tasks: seq<string>)
    ensures DoneCount(WithAll(m, DueKeys(day, tasks), true), day, tasks) == |tasks|
  {
    DoneCountIsFull(WithAll(m, DueKeys(day, tasks), true), day, tasks);
  }

  /** Writing `false` under every due key leaves no due task done. */
  lemma ResetClears(m: map<string, bool>, day: string, tasks: seq<string>)
    ensures DoneCount(WithAll(m, DueKeys(day, tasks), false), day, tasks) == 0
  {
    DoneCountIsZero(WithAll(m, DueKeys(day, tasks), false), day, tasks);
  }

  /**
   * The percentage shown beside the counts: 0 when nothing is due, and
   * otherwise `100 * done / total` rounded down, which lies in 0..100 when
   * `done <= total` and is 100 exactly when everything is done.
   */
  function Percent(done: nat, total: nat): (pct: nat)
    ensures total == 0 ==> pct == 0
    ensures total > 0 ==> pct * total <= 100 * done < (pct + 1) * total
    ensures done <= total ==> pct <= 100
    ensures total > 0 && done <= total ==> (pct == 100 <==> done == total)
  {
    if total == 0 then 0
    else
      PercentBounds(done, total);
      (100 * done) / total
  }

  /** Where the rounded-down quotient `100 * done / total` lies. */
  lemma PercentBounds(done: nat, total: nat)
    requires total > 0
    ensures var pct := (100 * done) / total;
            && 0 <= pct
            && pct * total <= 100 * done < (pct + 1) * total
            && (done <= total ==> pct <= 100)
            && (done <= total ==> (pct == 100 <==> done == total))
  {
    var pct, rest := (100 * done) / total, (100 * done) % total;
    assert 100 * done == pct * total + rest && 0 <= rest < total;
    assert (pct + 1) * total == pct * total + total;
    if done <= total {
      MulMonotone(done, total, 100);
      assert pct * total <= 100 * total;
      QuotientAtMost(pct, 100, total);
      if done == total {
        QuotientBelow(100, pct + 1, total);
      }
      if pct == 100 {
        assert total * 100 <= done * 100;
        QuotientAtMost(total, done, 100);
      }
    }
  }

  /** Multiplying by the same count keeps `<=`. */
  lemma {:induction false} MulMonotone(a: nat, b: nat, c: nat)
    requires a <= b
    ensures a * c <= b * c
  {
    if c > 0 {
      MulMonotone(a, b, c - 1);
      assert a * c == a * (c - 1) + a && b * c == b * (c - 1) + b;
    }
  }

  /** Cancelling a positive factor on both sides of `<=`. */
  lemma QuotientAtMost(a: nat, b: nat, c: nat)
    requires c > 0 && a * c <= b * c
    ensures a <= b
  {
    if b + 1 <= a {
      assert (b + 1) * c == b * c + c;
      MulMonotone(b + 1, a, c);
    }
  }

  /** Cancelling a factor on both sides of `<`. */
  lemma QuotientBelow(a: nat, b: nat, c: nat)
    requires a * c < b * c
    ensures a < b
  {
    if b <= a {
      MulMonotone(b, a, c);
    }
  }

  /**
   * With the lists of app.py, the page shows 100% right after "Mark all
   * done" and 0% right after "Reset today", whatever the store held before.
   */
  lemma ButtonsShowFullAndEmptyProgress(lists: TaskLists, day: string, m: map<string, bool>)
    requires IsAppTaskLists(lists)
    ensures var tasks := Due(TasksForDay(lists, day));
            var total := TaskCount(TasksForDay(lists, day));
            Percent(DoneCount(WithAll(m, DueKeys(day, tasks), true), day, tasks), total) == 100 &&
            Percent(DoneCount(WithAll(m, DueKeys(day, tasks), false), day, tasks), total) == 0
  {
    var groups := TasksForDay(lists, day);
    DueCountByDay(lists, day);
    MarkAllCompletes(m, day, Due(groups));
    ResetClears(m, day, Due(groups));
  }

  /** `st.session_state` as a store of ticks: key to ticked-or-not. */
  class SessionState {
    var entries: map<string, bool>

    constructor (initial: map<string, bool>)
      ensures entries == initial
    {
      entries := initial;
    }

    /**
     * `progress_counts(day_name)` over the groups on the page: `total` is
     * the number of due task entries and `done` how many of them have a
     * ticked key on `dayName`.
     */
    method ProgressCounts(groups: seq<Group>, dayName: string) returns (done: nat, total: nat)
      ensures total == TaskCount(groups)
      ensures done == DoneCount(entries, dayName, Due(groups))
      ensures done <= total
    {
      total, done := 0, 0;
      ghost var seen: seq<string> := [];
      for i := 0 to |groups|
        invariant seen == Due(groups[..i])
        invariant total == |seen| && done == DoneCount(entries, dayName, seen)
      {
        var items := groups[i].tasks;
        ghost var before := seen;
        for j := 0 to |items|
          invariant seen == before + items[..j]
          invariant total == |seen| && done == DoneCount(entries, dayName, seen)
        {
          DoneCountAppend(entries, dayName, seen, items[j]);
          assert before + items[..j + 1] == seen + [items[j]];
          seen := seen + [items[j]];
          total := total + 1;
          if Ticked(entries, Slug(dayName, items[j])) {
            done := done + 1;
          }
        }
        assert items[..|items|] == items;
        DueAppend(groups, i);
      }
      assert groups[..|groups|] == groups;
    }

    /** Writes `value` under the key of every due task on `day`, as both buttons' loops do. */
    method SetDue(groups: seq<Group>, day: string, value: bool)
      modifies this
      ensures entries == WithAll(old(entries), DueKeys(day, Due(groups)), value)
    {
      ghost var start := entries;
      for i := 0 to |groups|
        invariant entries == WithAll(start, DueKeys(day, Due(groups[..i])), value)
      {
        var items := groups[i].tasks;
        ghost var before := Due(groups[..i]);
        assert before + items[..0] == before;
        for j := 0 to |items|
          invariant entries == WithAll(start, DueKeys(day, before + items[..j]), value)
        {
          var key := Slug(day, items[j]);
          assert before + items[..j + 1] == (before + items[..j]) + [items[j]];
          DueKeysAppend(day, before + items[..j], items[j]);
          WithAllAdd(start, DueKeys(day, before + items[..j]), key, value);
          entries := entries[key := value];
        }
        assert items[..|items|] == items;
        DueAppend(groups, i);
      }
      assert groups[..|groups|] == groups;
    }

    /**
     * "Mark all done": every due task's key on `day` is set to `true`, all
     * other keys keep their entries, and every due task then counts as done.
     */
    method MarkAllDone(groups: seq<Group>, day: string)
      modifies this
      ensures entries == WithAll(old(entries), DueKeys(day, Due(groups)), true)
      ensures forall t :: t in Due(groups) ==> Slug(day, t) in entries && entries[Slug(day, t)]
      ensures forall k :: k in old(entries) && k !in DueKeys(day, Due(groups)) ==> k in entries && entries[k] == old(entries)[k]
      ensures old(entries).Keys <= entries.Keys
      ensures DoneCount(entries, day, Due(groups)) == TaskCount(groups)
    {
      SetDue(groups, day, true);
      MarkAllCompletes(old(entries), day, Due(groups));
    }

    /**
     * "Reset today": every due task's key on `day` is set to `false` (kept,
     * not removed), all other keys keep their entries, and no due task then
     * counts as done.
     */
    method ResetToday(groups: seq<Group>, day: string)
      modifies this
      ensures entries == WithAll(old(entries), DueKeys(day, Due(groups)), false)
      ensures forall t :: t in Due(groups) ==> Slug(day, t) in entries && !entries[Slug(day, t)]
      ensures forall k :: k in old(entries) && k !in DueKeys(day, Due(groups)) ==> k in entries && entries[k] == old(entries)[k]
      ensures old(entries).Keys <= entries.Keys
      ensures DoneCount(entries, day, Due(groups)) == 0
    {
      SetDue(groups, day, false);
      ResetClears(old(entries), day, Due(groups));
    }
  }

  /** The offered day names are made of letters only. */
  lemma DayNamesAreWords()
    ensures forall d :: d in Days ==> IsWord(d)
  {
    assert IsWord("Wednesday") && IsWord("Thursday") && IsWord("Friday");
    assert IsWord("Saturday") && IsWord("Sunday");
  }

  /** The keys of one task on two different offered days never coincide, so ticks are kept per day. */
  lemma DaysKeepSeparateTicks(d1: string, d2: string, t1: string, t2: string)
    requires d1 in Days && d2 in Days && d1 != d2
    ensures Slug(d1, t1) != Slug(d2, t2)
  {
    DayNamesAreWords();
    if |d1| == |d2| {
      // Only Thursday/Saturday and Friday/Sunday share a length; they differ
      // in their first letter.
      assert IsUpper(d1[0]) && IsUpper(d2[0]) && d1[0] != d2[0];
      KeyCharCaseInsensitive(d1[0], d2[0]);
      assert KeyChars(d1)[0] != KeyChars(d2)[0];
    }
    SlugDeterminesDay(d1, d2, t1, t2);
  }
}
