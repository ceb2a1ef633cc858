# Daily-trigger scheduler and stage selection, modelled in Dafny

This project models two parts of a small service that runs a game-automation
agent on a daily timetable.

**The scheduling engine** (`src/scheduler.py`) has these parts:

- `str2seconds` turns `H:M[:S]` strings into seconds since midnight.
- A `Task` holds a sorted list of daily trigger offsets.
  - Its per-slot deltas wrap past midnight.
  - It has a cursor `(next_run_timestamp, schedule_idx)` that `check(now)` moves forward.
  - Its constructor fast-forwards past the triggers already elapsed today without running the action.
- A `Scheduler` has a task list and a pause window.
  - A status query reports the next run.
  - One iteration of the polling thread, here `Tick(now)`, checks the tasks in order and runs each task whose check answered true.

**The decision rules of the automation runner** (`src/maa.py`) are these:

- the game day, which rolls over at 04:00;
- the table of days on which each resource stage is open;
- the first-match choice of the stage to spend sanity on;
- the drone mode;
- the state updates of the agent's callback, which cover the depot map, the sanity values and whether the last task chain succeeded.

The files:

- `results.dfy` (`Results`) holds `Option` and `Result`.
- `timeofday.dfy` (`TimeOfDay`) holds `str2seconds`, with Python's `split(':')` written out and its inverse `Join`.
- `schedule.dfy` (`Schedule`) holds the pure schedule: sorting, the deltas, the cursor and the catch-up outcome, plus parsing a list of time strings.
- `scheduling.dfy` (`Scheduling`) holds the classes `Task` and `Scheduler`, whose methods update their fields in place.
- `maa.dfy` (`Maa`) holds the weekday and stage tables, the selection rule and the `Runner` class.

**Time.** The clock is a parameter.

- `now` is a timestamp in seconds.
- `midnight` is the local midnight of the day a task is built.
- `today_weekday` takes the clock's `weekday()` and `hour`.
- Timestamps and offsets are `real`.
- Python's `float(...)` is the parameter `parse: string -> Option<real>`, where `None` stands for the `ValueError`.

**Invariants.** Each `Task` carries a ghost day counter `laps` and the ghost `origin` (its first midnight). `Valid()` states that the cursor always sits on one of the schedule's times of day: `next_run_timestamp == origin + schedule[schedule_idx] + 86400 * laps`. This makes the catch-up loop's termination provable.

**Actions.** A task keeps its `func` as an opaque value. What a call of it gives depends on the game and the network, so each call's outcome (`Returned(value)` or `Raised`) is an input to `Run`, and to `Tick` as one outcome per task. Each task keeps a ghost log `runs` of its calls: for each call, the task's state while the action ran and the outcome. Only `Run` extends the log, so the contracts can say when an action runs and when it does not.

**Exceptions.** A raising action is modelled as a `Raised` outcome. As written, such an exception escapes `run()` before the state is reset and ends the polling thread. `Tick` reports that with `alive == false`.

**Behaviours of the code that the model keeps:**

- Schedules are not deduplicated or range-checked. Duplicate times give zero deltas.
- Every part of a time string is converted before the parts are counted, so `"1:2:3:x"` reports the bad number, not the format error.
- An action's exception ends the polling thread. The TODO at line 100 of `src/scheduler.py` plans to run actions apart from the loop, so this is evidently not intended (see Findings).

`next_run_timestamp()` on an empty task list raises from `min`. Here it gives `None` instead (see "## Left out").

## Model

| member | source | states |
|---|---|---|
| TimeOfDay.Split | src/scheduler.py:9 | `s.split(':')` gives one more part than there are separators, and no part contains a separator |
| TimeOfDay.JoinSplit | src/scheduler.py:9 | joining the parts of a split with the separator gives back the original string |
| TimeOfDay.SplitJoin | src/scheduler.py:9 | splitting a join of separator-free parts gives back the parts |
| TimeOfDay.ParseAll | src/scheduler.py:9 | `[float(p) for p in parts]` succeeds iff every part parses, with the parsed values in order; otherwise the error names the first part that does not parse |
| TimeOfDay.Str2Seconds | src/scheduler.py:8-13 | succeeds iff every part parses and there are at most three parts; with all parts parsed, it fails with the format error (carrying the part count) iff there are more than three; when a part does not parse, the error is the one of the first such part, whatever the part count |
| TimeOfDay.HmsValue | src/scheduler.py:12-13 | `H:M:S` has value `H*3600 + M*60 + S` |
| TimeOfDay.PadsWithZero | src/scheduler.py:12-13 | missing trailing parts count as zero: `H:M` is `H*3600 + M*60`, and `H` is `H*3600` |
| TimeOfDay.Weigh | src/scheduler.py:12-13 | the hours, minutes and seconds present weigh 3600, 60 and 1; the missing ones count as zero |
| TimeOfDay.ExampleValue | src/scheduler.py:8-13 | `str2seconds("1:02:03.5") == 3723.5` |
| TimeOfDay.ExampleTooManyParts | src/scheduler.py:10-11 | `str2seconds("1:2:3:4")` fails with the format error for four parts |
| TimeOfDay.ExampleBadPartFirst | src/scheduler.py:9-11 | `str2seconds("1:2:3:x")` reports that `x` is not a number, because the parts are converted before they are counted |
| Schedule.Insert | src/scheduler.py:23 | inserting into a sorted list keeps it sorted and adds exactly the one element |
| Schedule.Sort | src/scheduler.py:23 | `sorted(...)` is ascending and a permutation of its input |
| Schedule.SortedUnique | src/scheduler.py:23 | two sorted lists with the same elements are equal, so the sorted schedule is determined by the times given |
| Schedule.Deltas | src/scheduler.py:24-29 | there is one delta per slot |
| Schedule.DeltasNonNegative | src/scheduler.py:24-27 | in a sorted schedule every delta but the wrap-around one is non-negative |
| Schedule.DeltasPositive | src/scheduler.py:24-29 | for strictly increasing times of day every delta, the wrap-around one included, is positive |
| Schedule.PrefixSum | src/scheduler.py:24-27 | the first `k` deltas add up to `schedule[k] - schedule[0]` |
| Schedule.DeltasSum | src/scheduler.py:24-29 | the deltas add up to exactly 86400, for any non-empty schedule |
| Schedule.Fire | src/scheduler.py:47-50 | a true check adds the current slot's delta, and the index moves to the next slot, wrapping to 0 after the last |
| Schedule.Step | src/scheduler.py:47-52 | a check keeps the index in range and leaves a cursor that is not due alone; with positive deltas the timestamp moves forward exactly when the check is due |
| Schedule.FireN | src/scheduler.py:47-50 | after any number of true checks the index stays within `[0, len)` |
| Schedule.FireNCompose | src/scheduler.py:47-50 | `a + b` true checks are `a` checks followed by `b` checks |
| Schedule.FireNSucc | src/scheduler.py:47-50 | one more true check after `k` of them fires from where they stopped |
| Schedule.FireNWithinDay | src/scheduler.py:47-50 | without wrapping, `k` true checks move the cursor `k` slots, and its timestamp by the difference of the two offsets |
| Schedule.WrapFire | src/scheduler.py:29 | firing the last slot lands on the next day's first trigger at slot 0 |
| Schedule.FireToWrap | src/scheduler.py:47-50 | from any slot, the true checks through the wrap land on the next day's first trigger |
| Schedule.FullCycle | src/scheduler.py:47-50 | after `len(schedule)` true checks the index is back where it started and the timestamp is exactly 86400 later |
| Schedule.FireNShift | src/scheduler.py:47-50 | shifting the starting timestamp shifts every later timestamp by the same amount and leaves the indices alone |
| Schedule.Periodic | src/scheduler.py:47-50 | `k + len` true checks land one day after `k` true checks, at the same slot |
| Schedule.AllDueExtend | src/scheduler.py:36-37 | one more due check extends the run of due checks |
| Schedule.CaughtUpUnique | src/scheduler.py:36-37 | the loop `while check(now): pass` has a single possible stopping point |
| Schedule.FireKeepsAligned | src/scheduler.py:47-50 | a true check keeps the cursor on one of the schedule's times of day, one day later after the wrap |
| Schedule.FireAdvances | src/scheduler.py:47-50 | for strictly increasing times of day every true check moves the timestamp strictly forward |
| Schedule.ParseTimes | src/scheduler.py:23 | `map(str2seconds, times)` succeeds iff every string converts, with the values in order; otherwise the error names the first bad string |
| Schedule.ParseSchedule | src/scheduler.py:22-29 | building a schedule succeeds iff every string converts and the list is non-empty; an empty list raises at `schedule[0]`, and other errors name the first bad string |
| Scheduling.DueLapBound | src/scheduler.py:34-37 | a due trigger lies no more days after the first midnight than there are whole days up to `now`, which bounds the catch-up loop |
| Scheduling.Task.constructor | src/scheduler.py:22-41 | the schedule is the sorted times with matching deltas; the task starts IDLE with its action, and the action has never been called; the first trigger is today's first time; the cursor is where catch-up stops, strictly after `now` |
| Scheduling.Task.CatchUp | src/scheduler.py:32-37 | the catch-up loop terminates with `now < next_run_timestamp`, having made exactly the true checks `while check(now)` makes; the run log and the state are unchanged, so the action is not called |
| Scheduling.Task.Check | src/scheduler.py:43-52 | the answer is `next_run_timestamp <= now`; a true check adds `schedule_delta[idx]` and moves to `(idx + 1) % len`; a false check changes nothing; the invariant is kept |
| Scheduling.Task.Run | src/scheduler.py:54-58 | the action is called once, while the task is RUNNING, and the call is appended to the run log; its result is returned unchanged; IDLE afterwards, unless the action raised |
| Scheduling.Task.Poll | src/scheduler.py:98-100 | `if task.check(now): task.run()`: the cursor moves as `check` does; the run log grows by one RUNNING call exactly when the check answered true, and is unchanged otherwise |
| Scheduling.Scheduler.Turn | src/scheduler.py:98-100 | one task's turn in the loop, as `Task.Poll` states it, with every other task unchanged |
| Scheduling.Earliest | src/scheduler.py:88 | `min(tasks, key=next_run_timestamp)` is at most every task's next run and equal to one of them |
| Scheduling.Scheduler.constructor | src/scheduler.py:62-65 | no tasks, and a pause window that ends at construction time |
| Scheduling.Scheduler.AddTask | src/scheduler.py:81-82 | on an error nothing is appended and the error is returned; otherwise exactly one fresh, caught-up, IDLE task with the sorted schedule is appended and the earlier tasks are kept |
| Scheduling.Scheduler.Pause | src/scheduler.py:84-85 | the pause ends `seconds` after `now`, replacing any earlier window |
| Scheduling.Scheduler.NextRunTimestamp | src/scheduler.py:87-89 | with tasks, the result is `max(min next_run_timestamp, pause_until)`: at most every task's `max(next, pause_until)` and equal to one; with no tasks, `None` |
| Scheduling.Scheduler.Tick | src/scheduler.py:94-100 | during a pause no task is checked or changed; otherwise tasks are checked in order, and each task's run log grows by one call exactly when its check answered true; a raising action ends the iteration at that task, and the later tasks are neither checked nor run |
| Scheduling.Scheduler.TickIsolated | src/scheduler.py:94-100 | the same iteration with each action's exception caught: outside a pause every task is checked, and its run log grows by one call exactly when its check answered true |
| Maa.TodayWeekday | src/maa.py:31-38 | the game day is in 1..7; from 04:00 it is `weekday() + 1`; before 04:00 it is the previous day, and Monday wraps to 7 |
| Maa.TodayWeekdayIsDayOfShiftedClock | src/maa.py:31-38 | for any instant, the game day is the calendar day of the instant four hours earlier |
| Maa.Drones | src/maa.py:165 | the drone mode is one of `"PureGold"` and `"Money"` |
| Maa.DronesByHourOfWeek | src/maa.py:165 | drones go to `"Money"` exactly from Saturday 04:00 to Monday 04:00, and to `"PureGold"` the rest of the week |
| Maa.Amount | src/maa.py:128 | `depot.get(product, 0)`: the held amount, or 0 for a product the depot does not list |
| Maa.Satisfied | src/maa.py:128-130 | a demand is met when its amount is non-negative and held; an amount of -1 is never met, and for an unlisted product only an amount of 0 is met |
| Maa.OpenOn | src/maa.py:131-132 | a stage missing from the open-days table is open every day; a listed stage is closed outside game days 1..7 |
| Maa.Eligible | src/maa.py:128-133 | a met demand is never chosen; a never-enough demand on an unlisted stage is always eligible |
| Maa.FirstEligible | src/maa.py:125-136 | the chosen index is the first demand that is both unsatisfied and open today; there is none iff no demand qualifies |
| Maa.FirstEligibleAt | src/maa.py:125-136 | a demand that qualifies, with none before it qualifying, is the one chosen |
| Maa.EventStageAlwaysChosen | src/maa.py:98 | the first demand, 糖组 on OS-7, has amount -1 and a stage missing from the open-days table, so it is chosen whatever the depot and day |
| Maa.SelectionAlwaysMade | src/maa.py:122 | without the first demand, 经验书 on LS-6 still qualifies on every game day, so some demand is always chosen |
| Maa.DepotOf | src/maa.py:77-80 | `clear()` then one assignment per item: an empty report gives an empty depot, and the last item always sets its name's amount |
| Maa.DepotOfKeys | src/maa.py:77-80 | the rebuilt depot holds exactly the item names of the report |
| Maa.DepotOfLastWins | src/maa.py:79-80 | a name's amount is the `have` of the last report item with that name |
| Maa.Runner.constructor | src/maa.py:42-51 | empty depot; both sanity values are -1; no target; the last task is taken as ok |
| Maa.Runner.SelectFightStage | src/maa.py:95-136 | on today's game day, the target is set to the product and stage of the first qualifying demand, and left as it was if there is none |
| Maa.Runner.ChooseTarget | src/maa.py:125-136 | the selection loop over a demand table sets the target to the first qualifying demand |
| Maa.Runner.HandleMessage | src/maa.py:76-87 | a depot report replaces the depot with the report's items; a sanity report sets both sanity values; chain completed/error sets `last_task_ok` to true/false; nothing else changes |

## Left out

- The polling thread is left out, along with `start`, `stop`, `__del__`, the `exit` flag and `time.sleep(1)`. `Tick` is one iteration of the loop body.
- Clocks are left out: `time.time()` and `datetime.now()` become the parameters `now`, `midnight`, `weekday` and `hour`. The local-midnight computation is left out, so that DST and time zones are not modelled.
- IEEE floating point is left out. Timestamps are exact reals, and `float(...)` is the `parse` parameter.
- Concurrent access to `pause_until` and `tasks` from other threads is left out, because the model is sequential.
- Scheduling.Task.CatchUp: the constructor's loop is a method of its own. In the source it runs before `func` and `state` are assigned; in the model it runs after, because a Dafny constructor assigns every field before it calls a method on the new object. The loop neither reads nor writes `func`, `state` or the run log, so the reversed order is not observable.
- Scheduling.Task.Run: what the action does is left out, namely running the agent and sending a notification in the server module. So is how its outcomes relate from one call to the next. Each call's outcome is an input, and the model states only how the task records and reacts to it.
- Scheduling.Scheduler.Tick: the interleaving of calls across tasks is not recorded in one trace. Each task's own log is stated, together with the order in which tasks are checked.
- Scheduling.Task.constructor: it takes the already-converted offsets, and it requires them to be non-empty. The conversion and its errors, including the `IndexError` on an empty list, are `ParseSchedule`, which `AddTask` applies first.
- Scheduling.Scheduler.NextRunTimestamp: the `ValueError` of `min` on an empty task list is `None`.
- Maa.Runner.HandleMessage: the JSON decoding of the details is left out, and so are the `KeyError`s of a payload with missing fields. The callback receives an already-decoded `Details`, with integer sanity values and amounts.
- The game agent is left out: `Asst`, `ctypes`, `weakref`, the log file written by the callback, `__run_task` polling, `__run`, `run`, and the report lines.
- The modules `src/server.py`, `src/settings.py` and `src/bark.py` are not part of this model. They contain HTTP, configuration and notification code.

## Findings

| source | as written | input that shows it | evidently intended | confidence | as-written member | corrected member |
|---|---|---|---|---|---|---|
| src/scheduler.py:98-100 | an exception raised by a task's action escapes `run()` and the polling loop. The tasks after it are not checked, and the thread ends. | two due tasks whose first action raises: the second is never checked (`ExampleRaiseEndsTick`) | each action's failure is caught, and the remaining tasks are still checked on the same tick. The loop exists to serve every task, and the TODO at line 100 plans to run actions apart from it. | not executed | Scheduling.Scheduler.Tick | Scheduling.Scheduler.TickIsolated |
