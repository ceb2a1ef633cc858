/**
 * The scheduling engine of src/scheduler.py: `Task` (a daily schedule, its
 * cursor and its action) and `Scheduler` (a list of tasks, a pause window and
 * one iteration of the polling thread).
 */
module Scheduling {
  import opened Results
  import opened TimeOfDay
  import opened Schedule

  /** `TaskState`. */
  datatype TaskState = Idle | Running

  /** What one call of an action gives: the value it returned, or an exception it raised. */
  datatype ActionResult<+R> = Returned(value: R) | Raised

  /** One call of a task's action: the task's state while it ran, and what it gave. */
  datatype Call<+R> = Call(during: TaskState, outcome: ActionResult<R>)

  /**
   * A trigger that is due at `now` lies on a day no later than the whole
   * number of days from the schedule's first time to `now`.
   */
  lemma DueLapBound(s: seq<real>, c: Cursor, origin: real, lap: int, now: real)
    requires Sorted(s) && Aligned(s, c, origin, lap)
    requires c.next <= now
    ensures lap <= ((now - origin - s[0]) / Day).Floor
  {
  }

  /**
   * A task whose action is `A` and gives results of type `R`. The action is
   * kept as an opaque value: what a call of it gives depends on the world
   * (the game, the network), so each call's outcome is supplied to `Run`.
   */
  class Task<A, R> {
    /** The trigger offsets, in seconds since midnight, ascending. */
    const schedule: seq<real>
    /** `schedule_delta[i]`: seconds from slot `i` to the slot after it. */
    const schedule_delta: seq<real>
    /** `func`: the zero-argument action. */
    const action: A

    var next_run_timestamp: real
    var schedule_idx: nat
    var state: TaskState

    /** Local midnight of the day the task was built. */
    ghost const origin: real
    /** Whole days the cursor has moved past `origin`. */
    ghost var laps: int
    /** How many triggers the catch-up loop passed over without running the action. */
    ghost var skipped: nat
    /** Every call of the action so far, oldest first; only `Run` extends it. */
    ghost var runs: seq<Call<R>>

    /** The schedule is non-empty and sorted, and the deltas are its deltas; these never change. */
    ghost predicate WellFormed()
    {
      && |schedule| > 0
      && Sorted(schedule)
      && schedule_delta == Deltas(schedule)
    }

    ghost predicate Valid()
      reads this
    {
      && WellFormed()
      && Aligned(schedule, Position(), origin, laps)
    }

    /**
     * The cursor is where `while self.check(now): pass` leaves it when it
     * starts at the first trigger of the day beginning at `midnight`: `skipped`
     * checks answered true, and the next one answers false.
     */
    ghost predicate CaughtUpFrom(midnight: real, now: real)
      reads this
    {
      && |schedule| == |schedule_delta| > 0
      && var start := Cursor(midnight + schedule[0], 0);
      && Position() == FireN(schedule_delta, start, skipped)
      && CaughtUp(schedule_delta, start, skipped, now)
    }

    /** The cursor `(next_run_timestamp, schedule_idx)`. */
    function Position(): Cursor
      reads this
    {
      Cursor(next_run_timestamp, schedule_idx)
    }

    /**
     * `Task(schedule, func)` once the strings are parsed (see `ParseSchedule`):
     * sorts the offsets, builds the deltas, starts at today's first trigger and
     * catches up past every trigger up to `now` without running the action.
     * `midnight` is the local midnight of `now`.
     */
    constructor (times: seq<real>, action: A, midnight: real, now: real)
      requires |times| > 0
      ensures Valid()
      ensures schedule == Sort(times) && this.action == action && state == Idle
      ensures runs == []
      ensures origin == midnight
      ensures now < next_run_timestamp
      ensures CaughtUpFrom(midnight, now)
    {
      var sorted := Sort(times);
      schedule := sorted;
      schedule_delta := Deltas(sorted);
      this.action := action;
      origin := midnight;
      next_run_timestamp := midnight + sorted[0];
      schedule_idx := 0;
      laps := 0;
      skipped := 0;
      runs := [];
      state := Idle;
      new;
      CatchUp(now);
    }

    /**
     * The constructor's `while self.check(now): pass`, from the day's first
     * trigger: answers of `check` are dropped, so the action never runs.
     */
    method CatchUp(now: real)
      requires Valid() && laps == 0 && skipped == 0
      requires Position() == Cursor(origin + schedule[0], 0)
      modifies this`next_run_timestamp, this`schedule_idx, this`laps, this`skipped
      ensures Valid()
      ensures now < next_run_timestamp
      ensures CaughtUpFrom(origin, now)
      ensures unchanged(this`runs, this`state)
    {
      ghost var start := Position();
      ghost var bound := ((now - origin - schedule[0]) / Day).Floor;
      var fired := Check(now);
      if fired {
        DueLapBound(schedule, start, origin, 0, now);
        skipped := 1;
      }
      while fired
        invariant Valid()
        invariant Position() == FireN(schedule_delta, start, skipped)
        invariant AllDue(schedule_delta, start, skipped, now)
        invariant !fired ==> now < next_run_timestamp
        invariant fired ==> skipped > 0 && laps <= bound + (if schedule_idx == 0 then 1 else 0)
        decreases bound + 1 - laps, |schedule| - schedule_idx, fired
      {
        ghost var before, lap := Position(), laps;
        fired := Check(now);
        if fired {
          DueLapBound(schedule, before, origin, lap, now);
          FireNSucc(schedule_delta, start, skipped);
          AllDueExtend(schedule_delta, start, skipped, now);
          skipped := skipped + 1;
        }
      }
    }

    /**
     * `check(now)`: when the next run is due, advance it by the current
     * slot's delta, move to the next slot (cyclically) and answer true;
     * otherwise answer false and change nothing.
     */
    method Check(now: real) returns (fired: bool)
      requires Valid()
      modifies this`next_run_timestamp, this`schedule_idx, this`laps
      ensures Valid()
      ensures fired <==> old(next_run_timestamp) <= now
      ensures Position() == Step(schedule_delta, old(Position()), now)
      ensures laps == if fired && old(schedule_idx) + 1 == |schedule| then old(laps) + 1 else old(laps)
      ensures fired ==> next_run_timestamp == old(next_run_timestamp) + schedule_delta[old(schedule_idx)]
      ensures fired ==> schedule_idx == (old(schedule_idx) + 1) % |schedule|
      ensures !fired ==> next_run_timestamp == old(next_run_timestamp) && schedule_idx == old(schedule_idx)
    {
      if next_run_timestamp <= now {
        FireKeepsAligned(schedule, Position(), origin, laps);
        next_run_timestamp := next_run_timestamp + schedule_delta[schedule_idx];
        if schedule_idx + 1 == |schedule| {
          laps := laps + 1;
        }
        schedule_idx := (schedule_idx + 1) % |schedule|;
        fired := true;
      } else {
        fired := false;
      }
    }

    /**
     * What one step of the polling loop did to this task: `check(now)`
     * answered `fired` and moved the cursor as `check` does; the action was
     * called once, while the task was RUNNING and giving `outcome`, exactly
     * when `fired`; and the task is left RUNNING only when that call raised.
     */
    twostate predicate Polled(now: real, fired: bool, outcome: ActionResult<R>)
      reads this
    {
      && old(schedule_idx) < |schedule_delta|
      && fired == (old(next_run_timestamp) <= now)
      && Position() == Step(schedule_delta, old(Position()), now)
      && runs == old(runs) + (if fired then [Call(Running, outcome)] else [])
      && state == (if !fired then old(state) else if outcome.Raised? then Running else Idle)
    }

    /** `Polled`, and the action, if it was called, did not raise. */
    twostate predicate PolledQuietly(now: real, fired: bool, outcome: ActionResult<R>)
      reads this
    {
      Polled(now, fired, outcome) && !(fired && outcome.Raised?)
    }

    /**
     * `run()`: RUNNING while the action runs, IDLE afterwards, and the
     * action's result handed back. `outcome` is what this call of the action
     * gives. An exception raised by the action propagates before the state is
     * reset, so the task stays RUNNING.
     */
    method Run(outcome: ActionResult<R>) returns (res: ActionResult<R>)
      requires Valid()
      modifies this`state, this`runs
      ensures Valid()
      ensures res == outcome
      ensures runs == old(runs) + [Call(Running, outcome)]
      ensures state == if outcome.Raised? then Running else Idle
    {
      state := Running;
      res := outcome;
      runs := runs + [Call(state, res)];
      if res.Raised? {
        return;
      }
      state := Idle;
    }

    /**
     * One task's turn in the polling loop: `if task.check(now): task.run()`,
     * where the action, if called, gives `outcome`. `raised` says whether it
     * raised, which ends the loop.
     */
    method Poll(now: real, outcome: ActionResult<R>) returns (fired: bool, raised: bool)
      requires Valid()
      modifies this
      ensures Valid()
      ensures Polled(now, fired, outcome)
      ensures raised <==> fired && outcome.Raised?
    {
      fired := Check(now);
      raised := false;
      if fired {
        var res := Run(outcome);
        raised := res.Raised?;
      }
    }
  }

  /** The smallest `next_run_timestamp` of a non-empty list of tasks (`min(..., key=...)`). */
  function Earliest<A, R>(ts: seq<Task<A, R>>): (m: real)
    requires |ts| > 0
    reads ts
    ensures forall i :: 0 <= i < |ts| ==> m <= ts[i].next_run_timestamp
    ensures exists i :: 0 <= i < |ts| && m == ts[i].next_run_timestamp
  {
    if |ts| == 1 then ts[0].next_run_timestamp
    else
      var rest := Earliest(ts[1..]);
      assert forall i :: 1 <= i < |ts| ==> ts[i] == ts[1..][i - 1];
      if ts[0].next_run_timestamp <= rest then ts[0].next_run_timestamp else rest
  }

  function Max(a: real, b: real): real
  {
    if a < b then b else a
  }

  class Scheduler<A, R> {
    var tasks: seq<Task<A, R>>
    /** No check happens before this instant. */
    var pause_until: real

    ghost predicate Valid()
      reads this, tasks
    {
      && (forall i :: 0 <= i < |tasks| ==> tasks[i].Valid())
      && (forall i, j :: 0 <= i < j < |tasks| ==> tasks[i] != tasks[j])
    }

    /** `Scheduler()`: no tasks, and a pause window that has already ended (`now`). */
    constructor (now: real)
      ensures Valid() && tasks == [] && pause_until == now
    {
      tasks := [];
      pause_until := now;
    }

    /**
     * `add_task(schedule, func)`: build a task from the strings and append
     * it; when building raises, nothing is appended and the error is returned.
     */
    method AddTask(times: seq<string>, parse: string -> Option<real>, action: A,
                   midnight: real, now: real) returns (err: Option<ScheduleError>)
      requires Valid()
      modifies this`tasks
      ensures Valid()
      ensures ParseSchedule(times, parse).Err? ==>
        err == Some(ParseSchedule(times, parse).error) && tasks == old(tasks)
      ensures ParseSchedule(times, parse).Ok? ==> err == None && |tasks| == |old(tasks)| + 1
      ensures ParseSchedule(times, parse).Ok? ==> tasks[..|old(tasks)|] == old(tasks)
      ensures ParseSchedule(times, parse).Ok? ==>
        var t := tasks[|tasks| - 1];
        && fresh(t) && t.schedule == Sort(ParseSchedule(times, parse).value)
        && t.action == action && t.state == Idle && t.runs == [] && now < t.next_run_timestamp
      ensures ParseSchedule(times, parse).Ok? ==> tasks[|tasks| - 1].CaughtUpFrom(midnight, now)
    {
      match ParseSchedule(times, parse)
      case Err(e) =>
        err := Some(e);
      case Ok(xs) =>
        var t := new Task(xs, action, midnight, now);
        tasks := tasks + [t];
        err := None;
    }

    /** `pause(seconds)`: the window ends `seconds` from now, replacing any earlier window. */
    method Pause(seconds: int, now: real)
      modifies this`pause_until
      ensures pause_until == now + seconds as real
    {
      pause_until := now + seconds as real;
    }

    /**
     * `next_run_timestamp()`: the earliest next run of any task, but not
     * before the pause ends. With no tasks, `min` raises (None here).
     */
    function NextRunTimestamp(): (r: Option<real>)
      reads this, tasks
      ensures r.None? <==> tasks == []
      ensures r.Some? ==> pause_until <= r.value
      ensures r.Some? ==> forall i :: 0 <= i < |tasks| ==>
        r.value <= Max(tasks[i].next_run_timestamp, pause_until)
      ensures r.Some? ==>
        exists i :: 0 <= i < |tasks| && r.value == Max(tasks[i].next_run_timestamp, pause_until)
    {
      if tasks == [] then None else Some(Max(Earliest(tasks), pause_until))
    }

    /** Task `i`'s turn in the polling loop (`Task.Poll`); the other tasks do not change. */
    method Turn(i: nat, now: real, outcome: ActionResult<R>) returns (fired: bool, raised: bool)
      requires Valid() && i < |tasks|
      modifies tasks[i]
      ensures Valid()
      ensures tasks[i].Polled(now, fired, outcome)
      ensures raised <==> fired && outcome.Raised?
      ensures forall j :: 0 <= j < |tasks| && j != i ==> unchanged(tasks[j])
    {
      var t := tasks[i];
      assert forall j :: 0 <= j < |tasks| && j != i ==> tasks[j] != t;
      fired, raised := t.Poll(now, outcome);
    }

    /**
     * One iteration of the polling thread at time `now`; `outcomes[i]` is
     * what task `i`'s action gives if it is called on this iteration. During
     * a pause no task is checked. Otherwise every task is checked in list
     * order and run right after a true check. `checked` holds the answers of
     * the checks made; `alive` is false when an action raised, which ends the
     * thread: the tasks after it are not checked on this iteration (nor on
     * any later one).
     */
    method Tick(now: real, outcomes: seq<ActionResult<R>>) returns (checked: seq<bool>, alive: bool)
      requires Valid() && |outcomes| == |tasks|
      modifies tasks
      ensures Valid()
      ensures now < pause_until ==> checked == [] && alive
      ensures pause_until <= now && alive ==> |checked| == |tasks|
      ensures alive ==> forall i :: 0 <= i < |checked| ==> tasks[i].PolledQuietly(now, checked[i], outcomes[i])
      ensures !alive ==> 0 < |checked| <= |tasks|
      ensures !alive ==> forall i :: 0 <= i < |checked| - 1 ==> tasks[i].PolledQuietly(now, checked[i], outcomes[i])
      ensures !alive ==> var last := |checked| - 1;
        tasks[last].Polled(now, checked[last], outcomes[last]) && checked[last] && outcomes[last].Raised?
      ensures forall i :: |checked| <= i < |tasks| ==> unchanged(tasks[i])
    {
      checked, alive := [], true;
      if now < pause_until {
        return;
      }
      var i := 0;
      while i < |tasks|
        invariant 0 <= i <= |tasks| && |checked| == i && alive
        invariant Valid()
        invariant forall j :: 0 <= j < i ==> tasks[j].PolledQuietly(now, checked[j], outcomes[j])
        invariant forall j :: i <= j < |tasks| ==> unchanged(tasks[j])
      {
        var fired, raised := Turn(i, now, outcomes[i]);
        checked := checked + [fired];
        if raised {
          alive := false;
          return;
        }
        i := i + 1;
      }
    }

    /**
     * The polling iteration with each action's exception caught where it is
     * raised, so that one failing action neither ends the thread nor keeps
     * the later tasks from being checked on the same iteration. A task whose
     * action raised is left RUNNING, as `run()` leaves it.
     */
    method TickIsolated(now: real, outcomes: seq<ActionResult<R>>) returns (checked: seq<bool>)
      requires Valid() && |outcomes| == |tasks|
      modifies tasks
      ensures Valid()
      ensures now < pause_until ==> checked == []
      ensures pause_until <= now ==> |checked| == |tasks|
      ensures forall i :: 0 <= i < |checked| ==> tasks[i].Polled(now, checked[i], outcomes[i])
      ensures forall i :: |checked| <= i < |tasks| ==> unchanged(tasks[i])
    {
      checked := [];
      if now < pause_until {
        return;
      }
      var i := 0;
      while i < |tasks|
        invariant 0 <= i <= |tasks| && |checked| == i
        invariant Valid()
        invariant forall j :: 0 <= j < i ==> tasks[j].Polled(now, checked[j], outcomes[j])
        invariant forall j :: i <= j < |tasks| ==> unchanged(tasks[j])
      {
        var fired, _ := Turn(i, now, outcomes[i]);
        checked := checked + [fired];
        i := i + 1;
      }
    }
  }

  /**
   * `Task(["10:00", "02:00"], func)` built at 05:00 (midnight at 0): the
   * schedule is put in order, 02:00 has passed and is skipped without
   * running the action, and the next run is 10:00 the same day.
   */
  method ExampleCatchUp()
  {
    var t := new Task<string, int>([36000.0, 7200.0], "func", 0.0, 18000.0);
    assert Insert(7200.0, []) == [7200.0];
    assert Insert(36000.0, [7200.0]) == [7200.0, 36000.0];
    assert t.schedule == [7200.0, 36000.0];
    var start := Cursor(7200.0, 0);
    assert FireN(t.schedule_delta, start, 1) == Cursor(36000.0, 1);
    assert CaughtUp(t.schedule_delta, start, 1, 18000.0);
    CaughtUpUnique(t.schedule_delta, start, 1, t.skipped, 18000.0);
    assert t.next_run_timestamp == 36000.0 && t.schedule_idx == 1;
    assert t.runs == [];
  }

  /** A number parser that knows only the string "1". */
  function OnlyOne(p: string): Option<real>
  {
    if p == "1" then Some(1.0) else None
  }

  /**
   * `add_task(["1"], func)` at midnight: "1" reads as 01:00, nothing has
   * passed yet, so the task's first run is 01:00 today.
   */
  method ExampleAddTask() returns (s: Scheduler<string, int>, t: Task<string, int>)
  {
    var parse := OnlyOne;
    s := new Scheduler<string, int>(0.0);
    SplitNoSep("1", ':');
    assert ["1"][1..] == [];
    assert parse("1") == Some(1.0);
    var parts := ParseAll(["1"], parse).value;
    assert |parts| == 1 && parts[0] == 1.0;
    assert parts == [1.0];
    assert [1.0] + [0.0, 0.0, 0.0] == [1.0, 0.0, 0.0, 0.0];
    assert Weigh([1.0]) == 3600.0;
    assert Str2Seconds("1", parse) == Ok(3600.0);
    var err := s.AddTask(["1"], parse, "func", 0.0, 0.0);
    assert err == None && |s.tasks| == 1;
    t := s.tasks[0];
    assert t.schedule == [3600.0];
    CaughtUpUnique(t.schedule_delta, Cursor(3600.0, 0), 0, t.skipped, 0.0);
    assert t.next_run_timestamp == 3600.0;
  }

  /**
   * A task due at 01:00 while the scheduler is paused until 02:00: no
   * iteration inside the pause checks it, the first iteration after the
   * pause runs it once and moves it to 01:00 the next day, and the iteration
   * after that does not run it again.
   */
  method ExamplePause(s: Scheduler<string, int>, t: Task<string, int>)
    requires s.Valid() && s.tasks == [t]
    requires t.schedule == [3600.0] && t.Position() == Cursor(3600.0, 0)
    modifies s, t
  {
    assert s.tasks[0].Valid();
    assert t.schedule_delta == [Day];
    ghost var before := t.runs;
    s.Pause(7200, 0.0);
    var checked := s.TickIsolated(3600.0, [Returned(0)]);
    assert checked == [] && t.next_run_timestamp == 3600.0 && t.runs == before;
    checked := s.TickIsolated(7200.0, [Returned(0)]);
    assert checked == [true] && t.next_run_timestamp == 3600.0 + Day;
    assert t.runs == before + [Call(Running, Returned(0))];
    checked := s.TickIsolated(7201.0, [Returned(0)]);
    assert checked == [false] && t.next_run_timestamp == 3600.0 + Day;
    assert t.runs == before + [Call(Running, Returned(0))];
  }

  /**
   * Two due tasks, the first of whose actions raises: the polling iteration
   * as written stops at the first task, so the second one, although due, is
   * neither checked nor run, and the thread ends.
   */
  method ExampleRaiseEndsTick(s: Scheduler<string, int>, first: Task<string, int>, second: Task<string, int>, now: real)
    requires s.Valid() && s.tasks == [first, second] && s.pause_until <= now
    requires first.next_run_timestamp <= now && second.next_run_timestamp <= now
    modifies first, second
  {
    ghost var due, ran := second.next_run_timestamp, second.runs;
    var checked, alive := s.Tick(now, [Raised, Returned(0)]);
    assert 0 < |checked| && s.tasks[0] == first && s.tasks[1] == second;
    assert first.Polled(now, checked[0], Raised);
    assert !alive && checked == [true];
    assert first.state == Running;
    assert second.next_run_timestamp == due <= now && second.runs == ran;
  }

  /** The same two tasks under `TickIsolated`: both are checked and run, and the second one moves on. */
  method ExampleRaiseIsolated(s: Scheduler<string, int>, first: Task<string, int>, second: Task<string, int>, now: real)
    requires s.Valid() && s.tasks == [first, second] && s.pause_until <= now
    requires first.next_run_timestamp <= now && second.next_run_timestamp <= now
    modifies first, second
  {
    assert s.tasks[1] == second && second.Valid();
    ghost var before, ran := second.Position(), second.runs;
    var checked := s.TickIsolated(now, [Raised, Returned(0)]);
    assert s.tasks[0] == first && s.tasks[1] == second;
    assert first.Polled(now, checked[0], Raised);
    assert second.Polled(now, checked[1], Returned(0));
    assert checked == [true, true];
    assert second.state == Idle && second.runs == ran + [Call(Running, Returned(0))];
    assert second.Position() == Fire(second.schedule_delta, before);
  }
}
