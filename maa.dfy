/**
 * The decision rules of src/maa.py: the game day (which rolls over at 04:00),
 * the table of days on which each resource stage is open, the first-match
 * choice of the stage to spend sanity on, the drone mode, and the state the
 * game agent's callback keeps (`Runner`).
 */
module Maa {
  import opened Results

  /**
   * `stage_open_weekdays`: the game days (1 = Monday … 7 = Sunday) on which
   * each stage is open. A stage that is not listed is open every day.
   */
  const StageOpenWeekdays: map<string, seq<int>> := map[
    "LS-6" := [1, 2, 3, 4, 5, 6, 7],
    "CE-6" := [2, 4, 6],
    "AP-5" := [1, 4, 6],
    "CA-5" := [2, 3, 5],
    "SK-5" := [1, 3, 5, 6],
    "PR-A-1" := [1, 4, 5],
    "PR-A-2" := [1, 4, 5],
    "PR-B-1" := [1, 2, 5, 6],
    "PR-B-2" := [1, 2, 5, 6],
    "PR-C-1" := [3, 4, 6],
    "PR-C-2" := [3, 4, 6],
    "PR-D-1" := [2, 3, 6],
    "PR-D-2" := [2, 3, 6]
  ]

  /** Hours in a day, and the hour at which the game day rolls over. */
  const HoursPerDay: int := 24
  const Rollover: int := 4

  /**
   * `today_weekday()`, with the clock's `weekday()` (0 = Monday … 6 = Sunday)
   * and `hour` passed in: the calendar day numbered from 1, except that
   * before 04:00 it is still the previous day, and Monday before 04:00 is 7.
   */
  function TodayWeekday(weekday: int, hour: int): (r: int)
    requires 0 <= weekday <= 6 && 0 <= hour < HoursPerDay
    ensures 1 <= r <= 7
    ensures Rollover <= hour ==> r == weekday + 1
    ensures hour < Rollover ==> r == if weekday == 0 then 7 else weekday
  {
    var day := weekday + 1;
    var day' := if hour < Rollover then day - 1 else day;
    if day' == 0 then 7 else day'
  }

  /**
   * The game day of an instant `t`, counted in whole hours from some Monday
   * 00:00 (negative before it): `today_weekday` is the calendar day of the
   * instant four hours earlier.
   */
  lemma TodayWeekdayIsDayOfShiftedClock(t: int)
    ensures TodayWeekday((t / HoursPerDay) % 7, t % HoursPerDay) == ((t - Rollover) / HoursPerDay) % 7 + 1
  {
    var d, h := t / HoursPerDay, t % HoursPerDay;
    var w := d % 7;
    assert t == d * HoursPerDay + h;
    assert d == (d / 7) * 7 + w;
    if Rollover <= h {
      DivMod(t - Rollover, HoursPerDay, d, h - Rollover);
    } else {
      DivMod(t - Rollover, HoursPerDay, d - 1, h + HoursPerDay - Rollover);
      if w == 0 {
        DivMod(d - 1, 7, d / 7 - 1, 6);
      } else {
        DivMod(d - 1, 7, d / 7, w - 1);
      }
    }
  }

  /** The drone mode of the infrastructure task, on game day `today`. */
  function Drones(today: int): (r: string)
    ensures r == "PureGold" || r == "Money"
  {
    if today <= 5 then "PureGold" else "Money"
  }

  /**
   * Drones go to gold from Monday 04:00 to Saturday 04:00 and to money from
   * Saturday 04:00 to Monday 04:00; `t` counts hours as in
   * `TodayWeekdayIsDayOfShiftedClock`.
   */
  lemma DronesByHourOfWeek(t: int)
    ensures Drones(TodayWeekday((t / HoursPerDay) % 7, t % HoursPerDay)) == "Money"
        <==> 5 * HoursPerDay <= (t - Rollover) % (7 * HoursPerDay)
  {
    TodayWeekdayIsDayOfShiftedClock(t);
    var u := t - Rollover;
    var q, r := u / (7 * HoursPerDay), u % (7 * HoursPerDay);
    assert u == q * (7 * HoursPerDay) + r;
    var k := r / HoursPerDay;
    assert r == k * HoursPerDay + r % HoursPerDay;
    DivMod(u, HoursPerDay, 7 * q + k, r % HoursPerDay);
    DivMod(7 * q + k, 7, q, k);
  }

  /** `n / m == q` and `n % m == r` follow from `n == q * m + r` with `0 <= r < m`. */
  lemma DivMod(n: int, m: int, q: int, r: int)
    requires 0 < m && 0 <= r < m && n == q * m + r
    ensures n / m == q && n % m == r
  {
    var q', r' := n / m, n % m;
    assert n == q' * m + r' && 0 <= r' < m;
    if q' < q {
      assert (q - q') * m + r == r';
      assert (q - q') * m >= m by { MulAtLeast(q - q', m); }
    } else if q < q' {
      assert (q' - q) * m + r' == r;
      assert (q' - q) * m >= m by { MulAtLeast(q' - q, m); }
    }
  }

  lemma MulAtLeast(k: int, m: int)
    requires 1 <= k && 0 < m
    ensures k * m >= m
  {
  }

  /** One entry of the demand table: the product wanted, the amount that is enough, the stage that drops it. */
  datatype Demand = Demand(product: string, minAmount: int, stage: string)

  /**
   * The demand table of `__select_fight_stage`, in priority order. An amount
   * of -1 means the product is never enough.
   */
  const Demands: seq<Demand> := [
    Demand("糖组", -1, "OS-7"),
    Demand("重装芯片", 5 * 3, "PR-A-1"),
    Demand("重装芯片组", 8 * 2, "PR-A-2"),
    Demand("医疗芯片", 5 * 3, "PR-A-1"),
    Demand("医疗芯片组", 8 * 2, "PR-A-2"),
    Demand("狙击芯片", 5 * 3, "PR-B-1"),
    Demand("狙击芯片组", 8 * 2, "PR-B-2"),
    Demand("术师芯片", 5 * 3, "PR-B-1"),
    Demand("术师芯片组", 8 * 2, "PR-B-2"),
    Demand("先锋芯片", 5 * 3, "PR-C-1"),
    Demand("先锋芯片组", 8 * 2, "PR-C-2"),
    Demand("辅助芯片", 5 * 3, "PR-C-1"),
    Demand("辅助芯片组", 8 * 2, "PR-C-2"),
    Demand("近卫芯片", 5 * 3, "PR-D-1"),
    Demand("近卫芯片组", 8 * 2, "PR-D-2"),
    Demand("特种芯片", 5 * 3, "PR-D-1"),
    Demand("特种芯片组", 8 * 2, "PR-D-2"),
    Demand("技巧概要·卷3", 43 * 2, "CA-5"),
    Demand("红票", -1, "AP-5"),
    Demand("龙门币", -1, "CE-6"),
    Demand("经验书", -1, "LS-6")
  ]

  /** `depot.get(product, 0)`. */
  function Amount(depot: map<string, int>, product: string): (n: int)
    ensures product in depot ==> n == depot[product]
    ensures product !in depot ==> n == 0
  {
    if product in depot then depot[product] else 0
  }

  /** The depot already holds enough of the product; never so for a negative amount. */
  predicate Satisfied(d: Demand, depot: map<string, int>)
    ensures d.minAmount < 0 ==> !Satisfied(d, depot)
    ensures d.product !in depot ==> (Satisfied(d, depot) <==> d.minAmount == 0)
  {
    0 <= d.minAmount && d.minAmount <= Amount(depot, d.product)
  }

  /** The stage can be fought on game day `today`. */
  predicate OpenOn(stage: string, today: int)
    ensures stage !in StageOpenWeekdays ==> OpenOn(stage, today)
    ensures stage in StageOpenWeekdays && !(1 <= today <= 7) ==> !OpenOn(stage, today)
  {
    stage !in StageOpenWeekdays || today in StageOpenWeekdays[stage]
  }

  /** The demand is worth spending sanity on today. */
  predicate Eligible(d: Demand, depot: map<string, int>, today: int)
    ensures Satisfied(d, depot) ==> !Eligible(d, depot, today)
    ensures d.minAmount < 0 && d.stage !in StageOpenWeekdays ==> Eligible(d, depot, today)
  {
    !Satisfied(d, depot) && OpenOn(d.stage, today)
  }

  /** The index of the first eligible demand, if any. */
  function FirstEligible(ds: seq<Demand>, depot: map<string, int>, today: int): (r: Option<nat>)
    ensures r.Some? ==> r.value < |ds| && Eligible(ds[r.value], depot, today)
    ensures r.Some? ==> forall j :: 0 <= j < r.value ==> !Eligible(ds[j], depot, today)
    ensures r.None? <==> forall j :: 0 <= j < |ds| ==> !Eligible(ds[j], depot, today)
  {
    if ds == [] then None
    else if Eligible(ds[0], depot, today) then Some(0)
    else match FirstEligible(ds[1..], depot, today)
      case None => None
      case Some(k) => Some(k + 1)
  }

  /** Whatever the depot holds, the event stage OS-7 comes first and is open every day, so it is always chosen. */
  lemma EventStageAlwaysChosen(depot: map<string, int>, today: int)
    ensures FirstEligible(Demands, depot, today) == Some(0)
    ensures Demands[0] == Demand("糖组", -1, "OS-7")
  {
    assert "OS-7" !in StageOpenWeekdays;
    assert Eligible(Demands[0], depot, today);
  }

  /** Even without the event stage, the fallback 经验书 on LS-6 is wanted and open on every game day. */
  lemma SelectionAlwaysMade(depot: map<string, int>, today: int)
    requires 1 <= today <= 7
    ensures FirstEligible(Demands[1..], depot, today).Some?
  {
    var last := |Demands[1..]| - 1;
    assert Demands[1..][last] == Demand("经验书", -1, "LS-6");
    assert StageOpenWeekdays["LS-6"] == [1, 2, 3, 4, 5, 6, 7];
    assert today in StageOpenWeekdays["LS-6"];
    assert Eligible(Demands[1..][last], depot, today);
  }

  /** One stocked item of a depot report: its name and how many are held. */
  datatype DepotItem = DepotItem(name: string, have: int)

  /** The depot built from a report: later items overwrite earlier ones of the same name. */
  function DepotOf(items: seq<DepotItem>): (depot: map<string, int>)
    ensures items == [] ==> depot == map[]
    ensures items != [] ==> var last := items[|items| - 1];
      last.name in depot && depot[last.name] == last.have
  {
    if items == [] then map[]
    else
      var last := items[|items| - 1];
      DepotOf(items[..|items| - 1])[last.name := last.have]
  }

  /** The depot holds exactly the names the report lists. */
  lemma {:induction false} DepotOfKeys(items: seq<DepotItem>)
    ensures DepotOf(items).Keys == set i | 0 <= i < |items| :: items[i].name
  {
    if items != [] {
      var init := items[..|items| - 1];
      DepotOfKeys(init);
      assert forall i :: 0 <= i < |init| ==> init[i] == items[i];
      assert (set i | 0 <= i < |items| :: items[i].name)
          == (set i | 0 <= i < |init| :: init[i].name) + {items[|items| - 1].name};
    }
  }

  /** A name's amount is that of the last item reporting it. */
  lemma {:induction false} DepotOfLastWins(items: seq<DepotItem>, i: nat)
    requires i < |items|
    requires forall j :: i < j < |items| ==> items[j].name != items[i].name
    ensures items[i].name in DepotOf(items) && DepotOf(items)[items[i].name] == items[i].have
  {
    if i < |items| - 1 {
      var init := items[..|items| - 1];
      assert init[i] == items[i];
      assert forall j :: i < j < |init| ==> init[j] == items[j];
      DepotOfLastWins(init, i);
    }
  }

  /** The messages of the game agent that change the callback's state; the rest are `OtherMessage`. */
  datatype Message = SubTaskExtraInfo | TaskChainCompleted | TaskChainError | OtherMessage

  /** The decoded details of a message, as far as the callback reads them. */
  datatype Details =
    | DepotInfo(items: seq<DepotItem>)
    | SanityBeforeStage(currentSanity: int, maxSanity: int)
    | OtherDetails

  /** The state of `Runner` that the callback and the stage choice read and write. */
  class Runner {
    var depot: map<string, int>
    var current_sanity: int
    var max_sanity: int
    var fight_product: Option<string>
    var fight_stage: Option<string>
    var last_task_ok: bool

    /** `Runner()`: empty depot, unknown sanity (-1), no stage chosen, last task taken as ok. */
    constructor ()
      ensures depot == map[] && current_sanity == -1 && max_sanity == -1
      ensures fight_product == None && fight_stage == None && last_task_ok
    {
      depot := map[];
      current_sanity := -1;
      max_sanity := -1;
      fight_product := None;
      fight_stage := None;
      last_task_ok := true;
    }

    /**
     * `__select_fight_stage()` with the clock's weekday and hour passed in:
     * the first demand that the depot does not satisfy and whose stage is
     * open today becomes the target; with none, the target is left as it was.
     */
    method SelectFightStage(weekday: int, hour: int)
      requires 0 <= weekday <= 6 && 0 <= hour < HoursPerDay
      modifies this`fight_product, this`fight_stage
      ensures match FirstEligible(Demands, depot, TodayWeekday(weekday, hour))
        case Some(k) =>
          fight_product == Some(Demands[k].product) && fight_stage == Some(Demands[k].stage)
        case None =>
          fight_product == old(fight_product) && fight_stage == old(fight_stage)
    {
      ChooseTarget(Demands, TodayWeekday(weekday, hour));
    }

    /** The loop of `__select_fight_stage` over the demand table `ds` on game day `today`. */
    method ChooseTarget(ds: seq<Demand>, today: int)
      modifies this`fight_product, this`fight_stage
      ensures match FirstEligible(ds, depot, today)
        case Some(k) =>
          fight_product == Some(ds[k].product) && fight_stage == Some(ds[k].stage)
        case None =>
          fight_product == old(fight_product) && fight_stage == old(fight_stage)
    {
      for i := 0 to |ds|
        invariant forall j :: 0 <= j < i ==> !Eligible(ds[j], depot, today)
        invariant fight_product == old(fight_product) && fight_stage == old(fight_stage)
      {
        var d := ds[i];
        var current := if d.product in depot then depot[d.product] else 0;
        if 0 <= d.minAmount && d.minAmount <= current {
          continue;
        }
        if d.stage !in StageOpenWeekdays || today in StageOpenWeekdays[d.stage] {
          FirstEligibleAt(ds, depot, today, i);
          fight_product := Some(d.product);
          fight_stage := Some(d.stage);
          return;
        }
      }
    }

    /**
     * The state updates of `__callback`: a depot report replaces the whole
     * depot, a sanity report sets both sanity values, and the end of a task
     * chain records whether it succeeded. Nothing else changes.
     */
    method HandleMessage(msg: Message, details: Details)
      modifies this`depot, this`current_sanity, this`max_sanity, this`last_task_ok
      ensures depot == if msg == SubTaskExtraInfo && details.DepotInfo? then DepotOf(details.items) else old(depot)
      ensures msg == SubTaskExtraInfo && details.SanityBeforeStage? ==>
        current_sanity == details.currentSanity && max_sanity == details.maxSanity
      ensures !(msg == SubTaskExtraInfo && details.SanityBeforeStage?) ==>
        current_sanity == old(current_sanity) && max_sanity == old(max_sanity)
      ensures last_task_ok == match msg
        case TaskChainCompleted => true
        case TaskChainError => false
        case _ => old(last_task_ok)
    {
      if msg == SubTaskExtraInfo && details.DepotInfo? {
        var items := details.items;
        depot := map[];
        for i := 0 to |items|
          invariant depot == DepotOf(items[..i])
          invariant current_sanity == old(current_sanity) && max_sanity == old(max_sanity)
          invariant last_task_ok == old(last_task_ok)
        {
          assert items[..i + 1][..i] == items[..i];
          depot := depot[items[i].name := items[i].have];
        }
        assert items[..|items|] == items;
      } else if msg == SubTaskExtraInfo && details.SanityBeforeStage? {
        current_sanity := details.currentSanity;
        max_sanity := details.maxSanity;
      } else if msg == TaskChainCompleted {
        last_task_ok := true;
      } else if msg == TaskChainError {
        last_task_ok := false;
      }
    }
  }

  /** When every demand before `i` is ineligible and `ds[i]` is eligible, `i` is the first. */
  lemma FirstEligibleAt(ds: seq<Demand>, depot: map<string, int>, today: int, i: nat)
    requires i < |ds| && Eligible(ds[i], depot, today)
    requires forall j :: 0 <= j < i ==> !Eligible(ds[j], depot, today)
    ensures FirstEligible(ds, depot, today) == Some(i)
  {
  }
}
