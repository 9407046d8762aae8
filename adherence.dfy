/** The adherence engine shared by the routine and diet controllers: the
    compliance log (date to `cumplido`), the streak ("racha") that walks back
    from today, and the 35-day calendar of day statuses.

    The controllers differ only in how they test a stored value: `if (x)` or
    `if (x === true)`, chosen separately for today and for the prior days, so
    the engine takes those two tests as parameters. */
module Adherence {

  import opened JsValues
  import Dates

  /** The walk looks at the prior days `today - i` for `i` in 1..89
      (`for (let i = 1; i < 90; i++)`). */
  const LOOKBACK: int := 90

  /** The calendar shows the days `today - 34` .. `today`. */
  const CALENDAR_DAYS: int := 35

  /** A compliance log: day number to the stored `cumplido` value. */
  type Log = map<int, Value>

  // --------------------------------------------------------------- the log

  /** `pairs[i]` is the last pair for its date. */
  predicate LastForDate(pairs: seq<(int, Value)>, i: int)
    requires 0 <= i < |pairs|
  {
    forall j :: i < j < |pairs| ==> pairs[j].0 != pairs[i].0
  }

  /** The dates the pairs mention. */
  function DatesOf(pairs: seq<(int, Value)>): set<int> {
    set i | 0 <= i < |pairs| :: pairs[i].0
  }

  /** `new Map(pairs)`: pairs are entered in order, so when several records
      share a date the last one decides its value. */
  function BuildLog(pairs: seq<(int, Value)>): (log: Log)
    ensures log.Keys == DatesOf(pairs)
    ensures forall i :: 0 <= i < |pairs| && LastForDate(pairs, i) ==> log[pairs[i].0] == pairs[i].1
  {
    if pairs == [] then map[]
    else
      var init := pairs[..|pairs| - 1];
      var last := pairs[|pairs| - 1];
      LastForDatePrefix(pairs);
      BuildLog(init)[last.0 := last.1]
  }

  lemma LastForDatePrefix(pairs: seq<(int, Value)>)
    requires pairs != []
    ensures DatesOf(pairs) == DatesOf(pairs[..|pairs| - 1]) + {pairs[|pairs| - 1].0}
    ensures forall i :: 0 <= i < |pairs| - 1 && LastForDate(pairs, i) ==>
      LastForDate(pairs[..|pairs| - 1], i) && pairs[..|pairs| - 1][i] == pairs[i] && pairs[i].0 != pairs[|pairs| - 1].0
  {
    var init := pairs[..|pairs| - 1];
    var a := DatesOf(pairs);
    var b := DatesOf(init);
    forall x | x in a ensures x in b + {pairs[|pairs| - 1].0} {
      var i :| 0 <= i < |pairs| && pairs[i].0 == x;
      if i < |init| {
        assert init[i].0 == x;
      }
    }
    forall x | x in b ensures x in a {
      var i :| 0 <= i < |init| && init[i].0 == x;
      assert pairs[i].0 == x;
    }
  }

  /** Every entry of the log is one of the pairs. */
  lemma {:induction false} LogEntriesArePairs(pairs: seq<(int, Value)>)
    ensures forall d :: d in BuildLog(pairs) ==> (d, BuildLog(pairs)[d]) in pairs
  {
    if pairs != [] {
      var init := pairs[..|pairs| - 1];
      LogEntriesArePairs(init);
      forall d | d in BuildLog(pairs) ensures (d, BuildLog(pairs)[d]) in pairs {
        if d != pairs[|pairs| - 1].0 {
          assert (d, BuildLog(init)[d]) in init;
        }
      }
    }
  }

  /** Pairs with boolean or NULL values give a boolean log. */
  lemma BooleanPairsBooleanLog(pairs: seq<(int, Value)>)
    requires forall i :: 0 <= i < |pairs| ==> IsBooleanOrNull(pairs[i].1)
    ensures BooleanLog(BuildLog(pairs))
  {
    LogEntriesArePairs(pairs);
  }

  /** How a stored value is tested. */
  datatype Test = IfTruthy | IfStrictTrue

  /** `map.get(d)`: the stored value, or `None` (undefined) when the date has
      no record. */
  function Lookup(log: Log, d: int): Option<Value> {
    if d in log then Some(log[d]) else None
  }

  predicate Passes(t: Test, v: Option<Value>) {
    v.Some? && match t
      case IfTruthy => Truthy(v.value)
      case IfStrictTrue => v.value == Bool(true)
  }

  /** Day `d` passes test `t` in the log. */
  predicate Done(log: Log, t: Test, d: int) {
    Passes(t, Lookup(log, d))
  }

  /** Day `d` falls on an active weekday (`diasConRutina.has(nombreDia)`). */
  predicate ActiveOn(active: set<string>, d: int) {
    Dates.NameOfDay(d) in active
  }

  /** A log whose values are all booleans or NULL. */
  predicate BooleanLog(log: Log) {
    forall d :: d in log ==> IsBooleanOrNull(log[d])
  }

  // ------------------------------------------------------------ the streak

  /** 1 when today's record passes the today test, on any weekday. */
  function TodayPoint(log: Log, today: int, t: Test): nat {
    if Done(log, t, today) then 1 else 0
  }

  /** The walk from `today - i` back: a rest day neither counts nor stops it,
      a completed active day counts one, any other active day stops it. */
  function PriorRun(active: set<string>, log: Log, today: int, t: Test, i: int): nat
    requires 1 <= i <= LOOKBACK
    decreases LOOKBACK - i
  {
    if i == LOOKBACK then 0
    else if !ActiveOn(active, today - i) then PriorRun(active, log, today, t, i + 1)
    else if Done(log, t, today - i) then 1 + PriorRun(active, log, today, t, i + 1)
    else 0
  }

  /** The streak: today's point and the backward walk from yesterday, two
      separate steps. */
  function Streak(active: set<string>, log: Log, today: int, todayTest: Test, priorTest: Test): nat {
    TodayPoint(log, today, todayTest) + PriorRun(active, log, today, priorTest, 1)
  }

  /** The `rachaRutina` / `rachaDieta` computation: a counter, a loop with
      `break`, and no write to the log. */
  method ComputeStreak(active: set<string>, log: Log, today: int, todayTest: Test, priorTest: Test)
    returns (racha: nat)
    ensures racha == Streak(active, log, today, todayTest, priorTest)
  {
    racha := 0;
    if Done(log, todayTest, today) {
      racha := racha + 1;
    }
    var i := 1;
    while i < LOOKBACK
      invariant 1 <= i <= LOOKBACK
      invariant racha + PriorRun(active, log, today, priorTest, i) == Streak(active, log, today, todayTest, priorTest)
    {
      var diaAnterior := today - i;
      PriorRunStep(active, log, today, priorTest, i);
      if ActiveOn(active, diaAnterior) {
        if Done(log, priorTest, diaAnterior) {
          racha := racha + 1;
        } else {
          break;
        }
      }
      i := i + 1;
    }
  }

  /** One step of the walk from `today - i`. */
  lemma PriorRunStep(active: set<string>, log: Log, today: int, t: Test, i: int)
    requires 1 <= i < LOOKBACK
    ensures PriorRun(active, log, today, t, i)
         == if !ActiveOn(active, today - i) then PriorRun(active, log, today, t, i + 1)
            else if Done(log, t, today - i) then 1 + PriorRun(active, log, today, t, i + 1)
            else 0
  {
  }

  // ------------------------------------- the streak without the walk

  /** Active days among `today - lo` .. `today - (hi - 1)`. */
  function ActiveCount(active: set<string>, today: int, lo: int, hi: int): nat
    decreases hi - lo
  {
    if lo >= hi then 0
    else (if ActiveOn(active, today - lo) then 1 else 0) + ActiveCount(active, today, lo + 1, hi)
  }

  /** `today - b` is where the walk stops: every active day after it passes,
      and it is an active day that does not (or `b` is the lookback bound). */
  predicate IsBreak(active: set<string>, log: Log, today: int, t: Test, b: int) {
    1 <= b <= LOOKBACK
    && (forall d :: today - b < d < today && ActiveOn(active, d) ==> Done(log, t, d))
    && (b < LOOKBACK ==> ActiveOn(active, today - b) && !Done(log, t, today - b))
  }

  lemma {:induction false} PriorRunCountsUntilBreak(active: set<string>, log: Log, today: int, t: Test, b: int, i: int)
    requires IsBreak(active, log, today, t, b) && 1 <= i <= b
    ensures PriorRun(active, log, today, t, i) == ActiveCount(active, today, i, b)
    decreases b - i
  {
    if i < b {
      PriorRunCountsUntilBreak(active, log, today, t, b, i + 1);
    }
  }

  lemma {:induction false} BreakFrom(active: set<string>, log: Log, today: int, t: Test, i: int)
    requires 1 <= i <= LOOKBACK
    requires forall d :: today - i < d < today && ActiveOn(active, d) ==> Done(log, t, d)
    ensures exists b :: IsBreak(active, log, today, t, b)
    decreases LOOKBACK - i
  {
    if i == LOOKBACK {
      assert IsBreak(active, log, today, t, LOOKBACK);
    } else if ActiveOn(active, today - i) && !Done(log, t, today - i) {
      assert IsBreak(active, log, today, t, i);
    } else {
      BreakFrom(active, log, today, t, i + 1);
    }
  }

  /** Every log has a break point in the window ... */
  lemma BreakExists(active: set<string>, log: Log, today: int, t: Test)
    ensures exists b :: IsBreak(active, log, today, t, b)
  {
    BreakFrom(active, log, today, t, 1);
  }

  /** ... and only one. */
  lemma BreakIsUnique(active: set<string>, log: Log, today: int, t: Test, b1: int, b2: int)
    requires IsBreak(active, log, today, t, b1) && IsBreak(active, log, today, t, b2)
    ensures b1 == b2
  {
  }

  /** The streak is today's point plus the number of active days strictly
      between the break and today. */
  lemma StreakAtBreak(active: set<string>, log: Log, today: int, todayTest: Test, priorTest: Test, b: int)
    requires IsBreak(active, log, today, priorTest, b)
    ensures Streak(active, log, today, todayTest, priorTest)
         == TodayPoint(log, today, todayTest) + ActiveCount(active, today, 1, b)
  {
    PriorRunCountsUntilBreak(active, log, today, priorTest, b, 1);
  }

  lemma {:induction false} ActiveCountBounds(active: set<string>, today: int, lo: int, hi: int, mid: int)
    requires lo <= mid <= hi
    ensures ActiveCount(active, today, lo, mid) <= ActiveCount(active, today, lo, hi)
    ensures ActiveCount(active, today, lo, hi) <= hi - lo
    decreases hi - lo
  {
    if lo < hi {
      if lo < mid {
        ActiveCountBounds(active, today, lo + 1, hi, mid);
      } else {
        ActiveCountBounds(active, today, lo + 1, hi, lo + 1);
      }
    }
  }

  lemma {:induction false} ActiveCountNone(today: int, lo: int, hi: int)
    ensures ActiveCount({}, today, lo, hi) == 0
    decreases hi - lo
  {
    if lo < hi {
      ActiveCountNone(today, lo + 1, hi);
    }
  }

  /** A walk that counts something passed the test on some day it
      reached. */
  lemma {:induction false} PriorRunNeedsCompletion(active: set<string>, log: Log, today: int, t: Test, i: int)
    requires 1 <= i <= LOOKBACK
    requires PriorRun(active, log, today, t, i) > 0
    ensures exists d :: today - LOOKBACK < d <= today - i && Done(log, t, d)
    decreases LOOKBACK - i
  {
    if i < LOOKBACK && !Done(log, t, today - i) {
      PriorRunNeedsCompletion(active, log, today, t, i + 1);
    }
  }

  /** A positive streak is earned by a record: some day of the window passed
      its test. */
  lemma StreakNeedsCompletion(active: set<string>, log: Log, today: int, todayTest: Test, priorTest: Test)
    requires Streak(active, log, today, todayTest, priorTest) > 0
    ensures Done(log, todayTest, today) || exists d :: today - LOOKBACK < d < today && Done(log, priorTest, d)
  {
    if !Done(log, todayTest, today) {
      PriorRunNeedsCompletion(active, log, today, priorTest, 1);
    }
  }

  /** Passing either test means the stored value is truthy. */
  lemma DoneIsTruthy(log: Log, t: Test, d: int)
    requires Done(log, t, d)
    ensures d in log && Truthy(log[d])
  {
  }

  lemma StreakBounds(active: set<string>, log: Log, today: int, todayTest: Test, priorTest: Test)
    ensures Streak(active, log, today, todayTest, priorTest)
         <= TodayPoint(log, today, todayTest) + ActiveCount(active, today, 1, LOOKBACK)
    ensures Streak(active, log, today, todayTest, priorTest) <= LOOKBACK
  {
    BreakExists(active, log, today, priorTest);
    var b :| IsBreak(active, log, today, priorTest, b);
    StreakAtBreak(active, log, today, todayTest, priorTest, b);
    ActiveCountBounds(active, today, 1, LOOKBACK, b);
  }

  /** The walk never gets past an active prior day that does not pass. */
  lemma StreakStopsAtMiss(active: set<string>, log: Log, today: int, todayTest: Test, priorTest: Test, m: int)
    requires 1 <= m < LOOKBACK && ActiveOn(active, today - m) && !Done(log, priorTest, today - m)
    ensures Streak(active, log, today, todayTest, priorTest)
         <= TodayPoint(log, today, todayTest) + ActiveCount(active, today, 1, m)
    ensures Streak(active, log, today, todayTest, priorTest) <= TodayPoint(log, today, todayTest) + m - 1
  {
    BreakExists(active, log, today, priorTest);
    var b :| IsBreak(active, log, today, priorTest, b);
    StreakAtBreak(active, log, today, todayTest, priorTest, b);
    ActiveCountBounds(active, today, 1, m, b);
  }

  /** When every active prior day in the window passes, the streak is today's
      point plus all of the window's active days. */
  lemma AllCompletedStreak(active: set<string>, log: Log, today: int, todayTest: Test, priorTest: Test)
    requires forall d :: today - LOOKBACK < d < today && ActiveOn(active, d) ==> Done(log, priorTest, d)
    ensures Streak(active, log, today, todayTest, priorTest)
         == TodayPoint(log, today, todayTest) + ActiveCount(active, today, 1, LOOKBACK)
  {
    StreakAtBreak(active, log, today, todayTest, priorTest, LOOKBACK);
  }

  /** With no active weekday nothing before today counts; today still counts
      when its record passes, whatever weekday it is. */
  lemma NoActiveWeekdays(log: Log, today: int, todayTest: Test, priorTest: Test)
    ensures Streak({}, log, today, todayTest, priorTest) == TodayPoint(log, today, todayTest)
  {
    StreakBounds({}, log, today, todayTest, priorTest);
    ActiveCountNone(today, 1, LOOKBACK);
  }

  lemma {:induction false} EmptyLogWalk(active: set<string>, today: int, t: Test, i: int)
    requires 1 <= i <= LOOKBACK
    ensures PriorRun(active, map[], today, t, i) == 0
    decreases LOOKBACK - i
  {
    if i < LOOKBACK {
      EmptyLogWalk(active, today, t, i + 1);
    }
  }

  /** An empty log (no records, or a query that returned none) gives 0. */
  lemma EmptyLogStreak(active: set<string>, today: int, todayTest: Test, priorTest: Test)
    ensures Streak(active, map[], today, todayTest, priorTest) == 0
  {
    EmptyLogWalk(active, today, priorTest, 1);
  }

  /** The walk reads only the active prior days of the window: two logs (and
      tests) that agree there give the same walk. */
  lemma {:induction false} PriorRunDependsOnlyOnWindow(
    active: set<string>, log1: Log, t1: Test, log2: Log, t2: Test, today: int, i: int)
    requires 1 <= i <= LOOKBACK
    requires forall d :: today - LOOKBACK < d < today && ActiveOn(active, d) ==> (Done(log1, t1, d) <==> Done(log2, t2, d))
    ensures PriorRun(active, log1, today, t1, i) == PriorRun(active, log2, today, t2, i)
    decreases LOOKBACK - i
  {
    if i < LOOKBACK {
      PriorRunDependsOnlyOnWindow(active, log1, t1, log2, t2, today, i + 1);
    }
  }

  /** An incomplete (or complete) today does not stop the walk from
      yesterday: today's record changes only today's point. */
  lemma TodayDoesNotStopWalk(active: set<string>, log: Log, today: int, todayTest: Test, priorTest: Test, v: Value)
    ensures Streak(active, log[today := v], today, todayTest, priorTest)
         == (if Passes(todayTest, Some(v)) then 1 else 0) + PriorRun(active, log, today, priorTest, 1)
  {
    PriorRunDependsOnlyOnWindow(active, log[today := v], priorTest, log, priorTest, today, 1);
  }

  /** A record on a prior rest day neither extends nor breaks the streak. */
  lemma RestDayIgnored(active: set<string>, log: Log, today: int, todayTest: Test, priorTest: Test, d: int, v: Value)
    requires d != today && !ActiveOn(active, d)
    ensures Streak(active, log[d := v], today, todayTest, priorTest) == Streak(active, log, today, todayTest, priorTest)
  {
    PriorRunDependsOnlyOnWindow(active, log[d := v], priorTest, log, priorTest, today, 1);
  }

  /** Records after today or older than the window are never read. */
  lemma OutsideWindowIgnored(active: set<string>, log: Log, today: int, todayTest: Test, priorTest: Test, d: int, v: Value)
    requires d > today || d <= today - LOOKBACK
    ensures Streak(active, log[d := v], today, todayTest, priorTest) == Streak(active, log, today, todayTest, priorTest)
  {
    PriorRunDependsOnlyOnWindow(active, log[d := v], priorTest, log, priorTest, today, 1);
  }

  lemma {:induction false} PriorRunMonotone(active: set<string>, log1: Log, log2: Log, today: int, t: Test, i: int)
    requires 1 <= i <= LOOKBACK
    requires forall d :: Done(log1, t, d) ==> Done(log2, t, d)
    ensures PriorRun(active, log1, today, t, i) <= PriorRun(active, log2, today, t, i)
    decreases LOOKBACK - i
  {
    if i < LOOKBACK {
      PriorRunMonotone(active, log1, log2, today, t, i + 1);
    }
  }

  /** Completing more days never shortens the streak. */
  lemma StreakMonotone(active: set<string>, log1: Log, log2: Log, today: int, todayTest: Test, priorTest: Test)
    requires forall d, t :: Done(log1, t, d) ==> Done(log2, t, d)
    ensures Streak(active, log1, today, todayTest, priorTest) <= Streak(active, log2, today, todayTest, priorTest)
  {
    PriorRunMonotone(active, log1, log2, today, priorTest, 1);
  }

  /** On a boolean log the truthy and the strict tests agree, so the three
      controllers' variants of the streak coincide. */
  lemma VariantsAgreeOnBooleanLog(active: set<string>, log: Log, today: int, t1: Test, t2: Test, t3: Test, t4: Test)
    requires BooleanLog(log)
    ensures Streak(active, log, today, t1, t2) == Streak(active, log, today, t3, t4)
  {
    forall d, t, u ensures Done(log, t, d) <==> Done(log, u, d) {
      if d in log {
        TruthyIsStrictOnBooleans(log[d]);
      }
    }
    PriorRunDependsOnlyOnWindow(active, log, t2, log, t4, today, 1);
  }

  /** On other values they do not: a numeric 1 counts under `if (x)` and not
      under `x === true`. */
  lemma VariantsDifferOnNumbers(today: int)
    ensures Streak({}, map[today := Num(1)], today, IfTruthy, IfTruthy) == 1
    ensures Streak({}, map[today := Num(1)], today, IfStrictTrue, IfStrictTrue) == 0
  {
    NoActiveWeekdays(map[today := Num(1)], today, IfTruthy, IfTruthy);
    NoActiveWeekdays(map[today := Num(1)], today, IfStrictTrue, IfStrictTrue);
  }

  // ---------------------------------------------------------- the calendar

  datatype Status = Future | Rest | Completed | Missed | Pending

  datatype CalendarDay = CalendarDay(fecha: int, status: Status)

  /** The status of day `d`, by the rules in their order: after today,
      future; a rest weekday, rest; a record `=== true`, completed; a record
      `=== false` before today, missed; anything else, pending. */
  function StatusOf(active: set<string>, log: Log, today: int, d: int): Status {
    if d > today then Future
    else if ActiveOn(active, d) then
      if Lookup(log, d) == Some(Bool(true)) then Completed
      else if Lookup(log, d) == Some(Bool(false)) && d < today then Missed
      else Pending
    else Rest
  }

  /** Each status, characterised on its own. */
  lemma StatusRules(active: set<string>, log: Log, today: int, d: int)
    ensures StatusOf(active, log, today, d) == Future <==> d > today
    ensures StatusOf(active, log, today, d) == Rest <==> d <= today && !ActiveOn(active, d)
    ensures StatusOf(active, log, today, d) == Completed <==>
      d <= today && ActiveOn(active, d) && Lookup(log, d) == Some(Bool(true))
    ensures StatusOf(active, log, today, d) == Missed <==>
      d < today && ActiveOn(active, d) && Lookup(log, d) == Some(Bool(false))
    ensures StatusOf(active, log, today, d) == Pending <==>
      d <= today && ActiveOn(active, d) && Lookup(log, d) != Some(Bool(true))
      && !(d < today && Lookup(log, d) == Some(Bool(false)))
  {
  }

  /** The calendar loop: from `today - 34` up to today, one entry per day. */
  method BuildCalendar(active: set<string>, log: Log, today: int) returns (calendario: seq<CalendarDay>)
    ensures |calendario| == CALENDAR_DAYS
    ensures forall k :: 0 <= k < |calendario| ==> calendario[k].fecha == today - (CALENDAR_DAYS - 1) + k
    ensures forall k :: 0 <= k < |calendario| ==>
      calendario[k].status == StatusOf(active, log, today, calendario[k].fecha)
    ensures calendario[CALENDAR_DAYS - 1].fecha == today
    ensures forall k :: 0 <= k < |calendario| ==> calendario[k].status != Future
    ensures forall k :: 0 <= k < |calendario| ==>
      (calendario[k].status == Rest <==> !ActiveOn(active, calendario[k].fecha))
    ensures forall k :: 0 <= k < |calendario| ==>
      (calendario[k].status == Missed ==> calendario[k].fecha < today)
  {
    calendario := [];
    var i := CALENDAR_DAYS - 1;
    while i >= 0
      invariant -1 <= i < CALENDAR_DAYS
      invariant |calendario| == CALENDAR_DAYS - 1 - i
      invariant forall k :: 0 <= k < |calendario| ==>
        calendario[k].fecha == today - (CALENDAR_DAYS - 1) + k
        && calendario[k].status == StatusOf(active, log, today, calendario[k].fecha)
    {
      var dia := today - i;
      var status := Pending;
      if dia > today {
        status := Future;
      } else if ActiveOn(active, dia) {
        var cumplido := Lookup(log, dia);
        if cumplido == Some(Bool(true)) {
          status := Completed;
        } else if cumplido == Some(Bool(false)) && dia < today {
          status := Missed;
        }
      } else {
        status := Rest;
      }
      calendario := calendario + [CalendarDay(dia, status)];
      i := i - 1;
    }
  }

  /** The calendar agrees with the streak: every day between the break and
      today is rest or completed, and the break day itself is missed or
      pending. */
  lemma CalendarAgreesWithStreak(active: set<string>, log: Log, today: int, t: Test, b: int)
    requires IsBreak(active, log, today, t, b)
    requires t == IfStrictTrue || BooleanLog(log)
    ensures forall d :: today - b < d < today ==> StatusOf(active, log, today, d) in {Rest, Completed}
    ensures b < LOOKBACK ==> StatusOf(active, log, today, today - b) in {Missed, Pending}
  {
    forall d | d in log
      ensures Done(log, t, d) <==> log[d] == Bool(true)
    {
      if t == IfTruthy {
        TruthyIsStrictOnBooleans(log[d]);
      }
    }
  }

  // ------------------------------------------------------------- scenarios

  /** Active on Monday and Wednesday; today (day 20, 1970-01-21) is a
      Wednesday; today, Monday and the previous Wednesday are completed: the
      streak is 3, whichever tests are used. */
  lemma MondayWednesdayScenario(todayTest: Test, priorTest: Test)
    ensures Streak({"Lunes", "Miércoles"}, map[18 := Bool(true), 13 := Bool(true), 20 := Bool(true)], 20, todayTest, priorTest) == 3
  {
    var active: set<string> := {"Lunes", "Miércoles"};
    var log := map[18 := Bool(true), 13 := Bool(true), 20 := Bool(true)];
    var names := Dates.WEEKDAY_NAMES;
    assert Dates.NameOfDay(11) == names[1] && Dates.NameOfDay(12) == names[2];
    assert Dates.NameOfDay(13) == names[3] && Dates.NameOfDay(14) == names[4];
    assert Dates.NameOfDay(15) == names[5] && Dates.NameOfDay(16) == names[6];
    assert Dates.NameOfDay(17) == names[0] && Dates.NameOfDay(18) == names[1];
    assert Dates.NameOfDay(19) == names[2];
    Dates.WeekdayNameInjective(0, 1);
    Dates.WeekdayNameInjective(0, 3);
    Dates.WeekdayNameInjective(2, 1);
    Dates.WeekdayNameInjective(2, 3);
    Dates.WeekdayNameInjective(4, 1);
    Dates.WeekdayNameInjective(4, 3);
    Dates.WeekdayNameInjective(5, 1);
    Dates.WeekdayNameInjective(5, 3);
    Dates.WeekdayNameInjective(6, 1);
    Dates.WeekdayNameInjective(6, 3);
    assert forall d :: 11 < d < 20 && ActiveOn(active, d) ==> d == 13 || d == 18;
    assert IsBreak(active, log, 20, priorTest, 9);
    StreakAtBreak(active, log, 20, todayTest, priorTest, 9);
  }

  /** Active on Monday only; today (day 18) is a Monday recorded `false`, and
      so is the Monday before: today is pending, that Monday missed, and the
      streak 0. */
  lemma MondayOnlyScenario(todayTest: Test, priorTest: Test)
    ensures var log := map[18 := Bool(false), 11 := Bool(false)];
      StatusOf({"Lunes"}, log, 18, 18) == Pending
      && StatusOf({"Lunes"}, log, 18, 11) == Missed
      && Streak({"Lunes"}, log, 18, todayTest, priorTest) == 0
  {
    var active: set<string> := {"Lunes"};
    var log := map[18 := Bool(false), 11 := Bool(false)];
    var names := Dates.WEEKDAY_NAMES;
    assert Dates.NameOfDay(11) == names[1] && Dates.NameOfDay(18) == names[1];
    StreakStopsAtMiss(active, log, 18, todayTest, priorTest, 7);
  }
}
