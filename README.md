# Weekly chore checklist: schedule, task keys and progress

A Dafny model of the logic under the Streamlit page in `app.py` of
helper-schedule. The page is a household chore checklist. For a chosen weekday it
lists the tasks that are due, grouped under section headings. Each task has a
checkbox whose state lives in the session state under a key derived from the
day and the task text. The page shows how many due tasks are ticked as a count
and a percentage. Two buttons tick all due tasks or untick them all.

The model has three modules, one per piece of that logic:

- `TaskKeys` (`slug.dfy`) covers `slug(day, task)`. It maps each character of
  `day + "::" + task`: letters and digits are lowercased and every other
  character becomes `-`. The result is cut to 200 characters. The lemmas show
  that the key is at most 200 characters long and uses only `-` and lowercase
  letters and digits. They also show that it agrees position by position with
  the mapped text, that it tells days apart, and that it forgets punctuation
  and anything past the cut.
- `Schedule` (`schedule.dfy`) covers `tasks_for_day` and `default_idx`. It also
  has the flattened list of due tasks in page order and the count of due tasks
  per weekday. The four task lists are a `TaskLists` value.
  `IsAppTaskLists` fixes their lengths at those in app.py: 13 daily,
  2 every-2-days, 6 Thursday and 5 Saturday.
- `Progress` (`progress.dfy`) models the session state as the class
  `SessionState`, which holds a `map<string, bool>`. The class has
  `progress_counts` and the loops of the two buttons as methods. Each method is
  proved against the specification functions `DoneCount` and `WithAll`. The
  module also has the displayed percentage and lemmas that tie the buttons to
  the counts shown afterwards.

Four facts about `app.py` shape the model:

- The key includes the day name and `::`, not only the task text.
- Runs of non-alphanumeric characters are not collapsed: each becomes its own
  `-`.
- "Reset today" writes `false` under each due key and keeps the key.
- "Mark all done" and "Reset today" update the session state in place.

## Model

| member | source | states |
|---|---|---|
| TaskKeys.IsAlnum | app.py:92 | `ch.isalnum()`: the ASCII letters in either case and the digits are alphanumeric, and nothing outside ASCII is |
| TaskKeys.Lower | app.py:92 | `ch.lower()` on one character: a capital letter becomes the lower-case letter at the same place in the alphabet, and any other character is left unchanged; the result is never upper case and is a letter or digit exactly when the input is |
| TaskKeys.KeyCharCaseInsensitive | app.py:92 | two letters or digits share a key character exactly when they are the same character or the same letter in different case |
| TaskKeys.KeyChar | app.py:92 | one character of the comprehension: the result is always a key character, and it is `-` exactly when the input is not alphanumeric |
| TaskKeys.KeyChars | app.py:92 | the comprehension over the whole text keeps the length and maps position `i` to `KeyChar` of input position `i` |
| TaskKeys.Slug | app.py:91-92 | `slug(day, task)` has length `min(200, |day| + 2 + |task|)`, so at most 200. Each of its characters is `-` or a lowercase letter or digit and is the mapping of the same position of `day + "::" + task`. Both `:` of the separator become `-`, and the first characters are the mapped day name |
| TaskKeys.SlugDeterminesDay | app.py:91-92 | two alphanumeric day names whose mapped forms differ give different keys, whatever the tasks |
| TaskKeys.SlugIgnoresPunctuation | app.py:92 | task texts of equal length that differ only in which non-alphanumeric characters they hold get the same key |
| TaskKeys.SlugIgnoresTail | app.py:92 | texts whose first 200 characters agree get the same key |
| Schedule.TasksForDay | app.py:94-102 | the daily group always comes first. The every-2-days group is second exactly when the day is Wednesday, Friday or Sunday. A weekly group appears only last and only on Thursday (the Thursday list) or Saturday (the Saturday list). There are never more than two groups, and a name not in `DAYS` gets the daily group alone |
| Schedule.Due | app.py:118-119 | the due tasks in the order the nested loops visit them; their number is the sum of the group lengths |
| Schedule.DueHoldsGroupTasks | app.py:118-119 | a task is visited by the loops exactly when some group holds it |
| Schedule.DueCountByDay | app.py:51-102 | with the lists of app.py, 15 tasks are due on Wednesday, Friday and Sunday, 19 on Thursday, 18 on Saturday and 13 on any other name |
| Schedule.IndexOf | app.py:109 | `list.index` on a value the list holds: the first position holding the value |
| Schedule.DefaultDayIndex | app.py:109 | the picker's initial index is a valid index into `DAYS`. It points at today's name when that name is in `DAYS`, and it is 0 (Wednesday) otherwise |
| Progress.Ticked | app.py:121 | the truth test of `st.session_state.get(key, False)`: an absent key reads as not ticked, and a present key reads as its stored value |
| Progress.DoneCount | app.py:115-123 | the ticked count of a task list is never more than the list's length |
| Progress.DoneCountIsFull | app.py:118-122 | the ticked count equals the number of tasks exactly when every task's key holds `True`; an absent key counts as not ticked |
| Progress.DoneCountIsZero | app.py:118-122 | the ticked count is 0 exactly when no task's key holds `True` |
| Progress.WithAll | app.py:132-140 | the store after writing one value under a set of keys: those keys hold the value, every other key keeps its entry, and the key set only grows |
| Progress.MarkAllCompletes | app.py:132-135 | after writing `True` under every due key, every due task counts as ticked |
| Progress.ResetClears | app.py:137-140 | after writing `False` under every due key, no due task counts as ticked |
| Progress.Percent | app.py:128 | the percentage is 0 when nothing is due. Otherwise it is `100 * done / total` rounded down, it lies in 0..100 when `done <= total`, and it is 100 exactly when `done == total` |
| Progress.PercentBounds | app.py:128 | the rounded-down quotient brackets `100 * done` between `pct * total` and `(pct + 1) * total`, and it is at most 100 when `done <= total` |
| Progress.ButtonsShowFullAndEmptyProgress | app.py:127-140 | with the lists of app.py, on any day and from any store, the percentage is 100 after "Mark all done" and 0 after "Reset today" |
| Progress.SessionState.ProgressCounts | app.py:115-123 | `total` is the number of due task entries, `done` is the number of them whose key on `dayName` holds `True`, and `done <= total` |
| Progress.SessionState.SetDue | app.py:132-140 | the buttons' nested loops leave the store equal to the old store with the given value written under every due key |
| Progress.SessionState.MarkAllDone | app.py:132-136 | "Mark all done" sets every due task's key to `True` and leaves all other keys as they were. No key is removed, and afterwards the ticked count equals the due count |
| Progress.SessionState.ResetToday | app.py:137-141 | "Reset today" sets every due task's key to `False`, keeping the keys, and leaves all other keys as they were. Afterwards the ticked count is 0 |
| Progress.DaysKeepSeparateTicks | app.py:89-92 | keys on two different days of `DAYS` never coincide, so ticking a task on one day does not tick anything on another day |

## Left out

- Page setup, CSS, titles, subheaders, captions, the progress bar and the checkbox, radio and button widgets (app.py:5-46, 105-110, 125-150) are UI only.
- `st.rerun()` and the binding of each checkbox to its session-state key are framework behaviour. The session state is a plain map that the methods update.
- `date.today()` is not modelled: today's weekday name is a parameter of `DefaultDayIndex`.
- TaskKeys.Lower and TaskKeys.IsAlnum cover ASCII only: Python's `str.isalnum` and `str.lower` also accept letters and digits outside ASCII, and `lower()` can turn one character into several. The only non-ASCII characters in the task texts are `–`, `—` and `×`, which Python also treats as non-alphanumeric, and the day names are ASCII.
- Progress.Percent: computes in exact integers instead of Python's `int(100 * done / total)` on floats. The two agree when `done <= total` and the totals are small, as they are here.
- The wording of the task texts is not modelled. Only the lists' order and lengths are kept, through `TaskLists` and `IsAppTaskLists`. So the model cannot say whether two of the real texts share a key (`SlugIgnoresPunctuation` shows when they would).
- `app.py` keeps its ticks only in the session state. It has no persistent store, no week-start date and no load or save, so none of them is modelled.
