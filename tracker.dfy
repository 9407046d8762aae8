/** controllers/tracker.controller.ts: today's trackers. The diet tracker
    lists today's scheduled meals, makes sure the day and every meal has a
    compliance record (creating only the missing ones), and merges the
    records back onto the meals; the routine tracker finds today's routine
    day and makes sure it has a record.

    "Today" is `getFechaLocal()` at the instant `nowMs`, with the default
    offset of -6 hours; records are keyed by its day number, which stands for
    the `YYYY-MM-DD` key (`Dates.KeyOfDayInjective`). */
module Tracker {

  import opened JsValues
  import opened Records
  import Dates

  /** The `cumplido` a row gets when an insert does not set it. */
  const INSERT_DEFAULT: Value := Bool(false)

  // ---------------------------------------------------------------- queries

  /** `.maybeSingle()`: the row when exactly one matches, no data otherwise
      (none, or more than one). */
  function MaybeSingle<T>(rows: seq<T>): (r: Option<T>)
    ensures r.Some? <==> |rows| == 1
    ensures r.Some? ==> r.value in rows
  {
    if |rows| == 1 then Some(rows[0]) else None
  }

  /** `cumplimiento_dieta_dia .eq("id_usuario", u) .eq("fecha_a_cumplir", f)`. */
  function DayRecordsOf(table: seq<DietDayCompliance>, idUsuario: int, fecha: int): (r: seq<DietDayCompliance>)
    ensures forall c :: c in r <==> c in table && c.idUsuario == idUsuario && c.fecha == fecha
  {
    if table == [] then []
    else
      var rest := DayRecordsOf(table[..|table| - 1], idUsuario, fecha);
      var last := table[|table| - 1];
      assert table == table[..|table| - 1] + [last];
      if last.idUsuario == idUsuario && last.fecha == fecha then rest + [last] else rest
  }

  /** `cumplimiento_rutina .eq("id_rutina_dia_semana", d) .eq("fecha_a_cumplir", f)`. */
  function RoutineRecordsOf(table: seq<RoutineCompliance>, idDia: int, fecha: int): (r: seq<RoutineCompliance>)
    ensures forall c :: c in r <==> c in table && c.idDia == idDia && c.fecha == fecha
  {
    if table == [] then []
    else
      var rest := RoutineRecordsOf(table[..|table| - 1], idDia, fecha);
      var last := table[|table| - 1];
      assert table == table[..|table| - 1] + [last];
      if last.idDia == idDia && last.fecha == fecha then rest + [last] else rest
  }

  /** `cumplimiento_dieta .eq("id_usuario", u) .eq("fecha_a_cumplir_dieta", f)
      .in("id_dieta_alimento", ids)`, in table order. */
  function SelectMeals(table: seq<MealCompliance>, idUsuario: int, fecha: int, ids: seq<int>): (r: seq<MealCompliance>)
    ensures forall c :: c in r <==> c in table && c.idUsuario == idUsuario && c.fecha == fecha && c.idComida in ids
  {
    if table == [] then []
    else
      var rest := SelectMeals(table[..|table| - 1], idUsuario, fecha, ids);
      var last := table[|table| - 1];
      assert table == table[..|table| - 1] + [last];
      if last.idUsuario == idUsuario && last.fecha == fecha && last.idComida in ids then rest + [last] else rest
  }

  /** An appended row extends the day query exactly when it matches. */
  lemma DayRecordsOfAppend(table: seq<DietDayCompliance>, c: DietDayCompliance, idUsuario: int, fecha: int)
    ensures DayRecordsOf(table + [c], idUsuario, fecha)
         == DayRecordsOf(table, idUsuario, fecha) + (if c.idUsuario == idUsuario && c.fecha == fecha then [c] else [])
  {
    assert (table + [c])[..|table + [c]| - 1] == table;
  }

  lemma RoutineRecordsOfAppend(table: seq<RoutineCompliance>, c: RoutineCompliance, idDia: int, fecha: int)
    ensures RoutineRecordsOf(table + [c], idDia, fecha)
         == RoutineRecordsOf(table, idDia, fecha) + (if c.idDia == idDia && c.fecha == fecha then [c] else [])
  {
    assert (table + [c])[..|table + [c]| - 1] == table;
  }

  // ------------------------------------------------- today's scheduled meals

  /** `dias.filter(d => d.dia_semana === nombreDiaHoy && d.id_dieta_alimento)`. */
  function ScheduledMeals(dias: seq<MealSlot>, nombreDia: string): (r: seq<MealSlot>)
    ensures |r| <= |dias|
    ensures forall s :: s in r <==> s in dias && s.diaSemana == nombreDia && IdTruthy(s.id)
  {
    if dias == [] then []
    else
      var rest := ScheduledMeals(dias[..|dias| - 1], nombreDia);
      var last := dias[|dias| - 1];
      assert dias == dias[..|dias| - 1] + [last];
      if last.diaSemana == nombreDia && IdTruthy(last.id) then rest + [last] else rest
  }

  /** `comidasProgramadas.map(c => c.id_dieta_alimento)`. */
  function MealIds(slots: seq<MealSlot>): (ids: seq<int>)
    ensures |ids| == |slots|
    ensures forall k :: 0 <= k < |slots| ==> ids[k] == slots[k].id
  {
    if slots == [] then [] else MealIds(slots[..|slots| - 1]) + [slots[|slots| - 1].id]
  }

  /** `rows.some(c => c.id_dieta_alimento === idComida)`. */
  predicate HasRecord(rows: seq<MealCompliance>, idComida: int) {
    exists c :: c in rows && c.idComida == idComida
  }

  // --------------------------------------------------- the records to create

  /** The ids of `comidasACrear`: the scheduled meals, in order, that have no
      record among `rows`. */
  function MissingMealIds(scheduled: seq<MealSlot>, rows: seq<MealCompliance>): (r: seq<int>)
    ensures |r| <= |scheduled|
    ensures forall x :: x in r <==> (exists k :: 0 <= k < |scheduled| && scheduled[k].id == x) && !HasRecord(rows, x)
    ensures r == [] <==> forall k :: 0 <= k < |scheduled| ==> HasRecord(rows, scheduled[k].id)
  {
    if scheduled == [] then []
    else
      var init := scheduled[..|scheduled| - 1];
      var last := scheduled[|scheduled| - 1];
      var rest := MissingMealIds(init, rows);
      assert forall k :: 0 <= k < |init| ==> init[k] == scheduled[k];
      if HasRecord(rows, last.id) then rest else rest + [last.id]
  }

  /** The `for (const comida of comidasProgramadas)` loop that pushes one
      insert for each scheduled meal without a record. */
  method CollectMissing(comidasProgramadas: seq<MealSlot>, comidasData: seq<MealCompliance>)
    returns (comidasACrear: seq<int>)
    ensures comidasACrear == MissingMealIds(comidasProgramadas, comidasData)
  {
    comidasACrear := [];
    for i := 0 to |comidasProgramadas|
      invariant comidasACrear == MissingMealIds(comidasProgramadas[..i], comidasData)
    {
      assert comidasProgramadas[..i + 1][..i] == comidasProgramadas[..i];
      if !HasRecord(comidasData, comidasProgramadas[i].id) {
        comidasACrear := comidasACrear + [comidasProgramadas[i].id];
      }
    }
    assert comidasProgramadas[..|comidasProgramadas|] == comidasProgramadas;
  }

  /** The rows the bulk insert adds, with ids from `first` on. */
  function NewMealRecords(idUsuario: int, fecha: int, ids: seq<int>, first: int): seq<MealCompliance> {
    seq(|ids|, k requires 0 <= k < |ids| => MealCompliance(first + k, idUsuario, ids[k], fecha, INSERT_DEFAULT))
  }

  /** After inserting the missing records every scheduled meal has one: a
      second run finds nothing to create. */
  lemma ReconcileCompletes(scheduled: seq<MealSlot>, table: seq<MealCompliance>, idUsuario: int, fecha: int, first: int)
    ensures var ids := MealIds(scheduled);
      var missing := MissingMealIds(scheduled, SelectMeals(table, idUsuario, fecha, ids));
      MissingMealIds(scheduled, SelectMeals(table + NewMealRecords(idUsuario, fecha, missing, first), idUsuario, fecha, ids)) == []
  {
    var ids := MealIds(scheduled);
    var before := SelectMeals(table, idUsuario, fecha, ids);
    var missing := MissingMealIds(scheduled, before);
    var added := NewMealRecords(idUsuario, fecha, missing, first);
    var after := SelectMeals(table + added, idUsuario, fecha, ids);
    forall k | 0 <= k < |scheduled| ensures HasRecord(after, scheduled[k].id) {
      var x := scheduled[k].id;
      assert x == ids[k];
      if HasRecord(before, x) {
        var c :| c in before && c.idComida == x;
        assert c in after;
      } else {
        assert x in missing;
        var j :| 0 <= j < |missing| && missing[j] == x;
        assert added[j] in table + added;
        assert added[j] in after;
      }
    }
  }

  // -------------------------------------------------------------- the merge

  /** An entry of `comidasDeHoy`: the slot, its `cumplido` and the id of its
      record (undefined without one). */
  datatype TodayMeal = TodayMeal(comida: MealSlot, cumplido: Value, idCumplimientoDieta: Option<int>)

  /** `rows.find(c => c.id_dieta_alimento === idComida)`. */
  function FindRecord(rows: seq<MealCompliance>, idComida: int): (r: Option<MealCompliance>)
    ensures r.Some? <==> HasRecord(rows, idComida)
    ensures r.Some? ==> r.value in rows && r.value.idComida == idComida
  {
    if rows == [] then None
    else if rows[0].idComida == idComida then Some(rows[0])
    else
      assert forall c :: c in rows ==> c == rows[0] || c in rows[1..];
      FindRecord(rows[1..], idComida)
  }

  /** `find` returns the first match in table order. */
  lemma {:induction false} FindRecordIsFirst(rows: seq<MealCompliance>, idComida: int)
    requires HasRecord(rows, idComida)
    ensures exists k :: (0 <= k < |rows| && rows[k] == FindRecord(rows, idComida).value
                         && forall j :: 0 <= j < k ==> rows[j].idComida != idComida)
  {
    if rows[0].idComida != idComida {
      FindRecordIsFirst(rows[1..], idComida);
      var k :| 0 <= k < |rows[1..]| && rows[1..][k] == FindRecord(rows[1..], idComida).value
        && forall j :: 0 <= j < k ==> rows[1..][j].idComida != idComida;
      assert rows[k + 1] == FindRecord(rows, idComida).value;
      forall j | 0 <= j < k + 1 ensures rows[j].idComida != idComida {
        if j > 0 { assert rows[j] == rows[1..][j - 1]; }
      }
    }
  }

  /** Row `j` is the first of `rows` for meal `idComida`. */
  predicate FirstMatch(rows: seq<MealCompliance>, idComida: int, j: int) {
    0 <= j < |rows| && rows[j].idComida == idComida
    && forall i :: 0 <= i < j ==> rows[i].idComida != idComida
  }

  /** `find` answers the first matching row, whichever it is. */
  lemma {:induction false} FindRecordFirstMatch(rows: seq<MealCompliance>, idComida: int, j: int)
    requires FirstMatch(rows, idComida, j)
    ensures FindRecord(rows, idComida) == Some(rows[j])
  {
    if j > 0 {
      assert rows[0].idComida != idComida;
      assert FirstMatch(rows[1..], idComida, j - 1) by {
        forall i | 0 <= i < j - 1 ensures rows[1..][i].idComida != idComida {
          assert rows[1..][i] == rows[i + 1];
        }
      }
      FindRecordFirstMatch(rows[1..], idComida, j - 1);
    }
  }

  /** The same, for every meal and row at once. */
  lemma FindRecordFirstMatches(rows: seq<MealCompliance>)
    ensures forall idComida, j :: FirstMatch(rows, idComida, j) ==> FindRecord(rows, idComida) == Some(rows[j])
  {
    forall idComida, j | FirstMatch(rows, idComida, j) ensures FindRecord(rows, idComida) == Some(rows[j]) {
      FindRecordFirstMatch(rows, idComida, j);
    }
  }

  function CumplidoOf(r: Option<MealCompliance>): Option<Value> {
    if r.Some? then Some(r.value.cumplido) else None
  }

  function IdOf(r: Option<MealCompliance>): Option<int> {
    if r.Some? then Some(r.value.id) else None
  }

  /** `comidasProgramadas.map(...)`: one entry per scheduled meal, in order,
      with `registro?.cumplido || false`. */
  function MergeMeals(scheduled: seq<MealSlot>, rows: seq<MealCompliance>): (r: seq<TodayMeal>)
    ensures |r| == |scheduled|
    ensures forall k :: 0 <= k < |r| ==> r[k].comida == scheduled[k]
    ensures forall k :: 0 <= k < |r| ==> (r[k].idCumplimientoDieta.Some? <==> HasRecord(rows, scheduled[k].id))
    ensures forall k :: 0 <= k < |r| ==> Truthy(r[k].cumplido) || r[k].cumplido == Bool(false)
    ensures forall k :: 0 <= k < |r| && r[k].cumplido != Bool(false) ==>
      exists c :: c in rows && c.idComida == scheduled[k].id && c.cumplido == r[k].cumplido
    ensures forall k :: 0 <= k < |r| && !HasRecord(rows, scheduled[k].id) ==> r[k].cumplido == Bool(false)
    ensures forall k, j :: 0 <= k < |r| && FirstMatch(rows, scheduled[k].id, j) ==>
      r[k].idCumplimientoDieta == Some(rows[j].id)
      && (Truthy(rows[j].cumplido) ==> r[k].cumplido == rows[j].cumplido)
      && (!Truthy(rows[j].cumplido) ==> r[k].cumplido == Bool(false))
  {
    FindRecordFirstMatches(rows);
    seq(|scheduled|, k requires 0 <= k < |scheduled| =>
      var reg := FindRecord(rows, scheduled[k].id);
      TodayMeal(scheduled[k], OrFalse(CumplidoOf(reg)), IdOf(reg)))
  }

  /** The diet tracker's answer. */
  datatype DietTracker = DietTracker(diaCumplido: Value, idCumplimientoDia: Option<int>, comidasDeHoy: seq<TodayMeal>)

  /** The routine tracker's answer. */
  datatype RoutineTracker = RoutineTracker(diaDeHoy: Option<RoutineDay>, diaCumplido: Value, idCumplimientoRutina: Option<int>)

  /** `rutinaActiva.dias.find(d => d.dia_semana === nombreDiaHoy)`. */
  function FirstDayOn(dias: seq<RoutineDay>, nombreDia: string): (r: Option<RoutineDay>)
    ensures r.None? <==> forall k :: 0 <= k < |dias| ==> dias[k].diaSemana != nombreDia
    ensures r.Some? ==> r.value in dias && r.value.diaSemana == nombreDia
  {
    if dias == [] then None
    else if dias[0].diaSemana == nombreDia then Some(dias[0])
    else
      assert forall k :: 1 <= k < |dias| ==> dias[k] == dias[1..][k - 1];
      FirstDayOn(dias[1..], nombreDia)
  }

  /** The day found is the first of today's weekday. */
  lemma {:induction false} FirstDayOnIsFirst(dias: seq<RoutineDay>, nombreDia: string)
    requires FirstDayOn(dias, nombreDia).Some?
    ensures exists k :: (0 <= k < |dias| && dias[k] == FirstDayOn(dias, nombreDia).value
                         && forall j :: 0 <= j < k ==> dias[j].diaSemana != nombreDia)
  {
    if dias[0].diaSemana != nombreDia {
      FirstDayOnIsFirst(dias[1..], nombreDia);
      var k :| 0 <= k < |dias[1..]| && dias[1..][k] == FirstDayOn(dias[1..], nombreDia).value
        && forall j :: 0 <= j < k ==> dias[1..][j].diaSemana != nombreDia;
      assert dias[k + 1] == FirstDayOn(dias, nombreDia).value;
      forall j | 0 <= j < k + 1 ensures dias[j].diaSemana != nombreDia {
        if j > 0 { assert dias[j] == dias[1..][j - 1]; }
      }
    }
  }

  // ------------------------------------------------------- the handlers

  /** The three compliance tables and the id sequence the inserts draw
      from. */
  datatype Tables = Tables(
    dietDays: seq<DietDayCompliance>, meals: seq<MealCompliance>,
    routineRecords: seq<RoutineCompliance>, nextId: int)

  /** Every id in use lies below `nextId`. */
  predicate IdsBelow(t: Tables) {
    1 <= t.nextId
    && (forall i :: 0 <= i < |t.dietDays| ==> t.dietDays[i].id < t.nextId)
    && (forall i :: 0 <= i < |t.meals| ==> t.meals[i].id < t.nextId)
    && (forall i :: 0 <= i < |t.routineRecords| ==> t.routineRecords[i].id < t.nextId)
  }

  /** The day number of `getFechaLocal()` at `nowMs`. */
  function Today(nowMs: int): int {
    Dates.LocalDay(nowMs, Dates.DEFAULT_OFFSET_HOURS)
  }

  /** `Today` and its weekday name are the two fields `getFechaLocal()`
      returns at `nowMs`, read through the injective key. */
  lemma TodayIsFechaLocal(nowMs: int)
    ensures Dates.GetFechaLocal(nowMs, Dates.DEFAULT_OFFSET_HOURS)
         == Dates.FechaLocal(Dates.KeyOfDay(Today(nowMs)), Dates.NameOfDay(Today(nowMs)))
    ensures Dates.NameOfDay(Today(nowMs)) in Dates.WEEKDAY_NAMES
    ensures forall d :: Dates.KeyOfDay(d) == Dates.GetFechaLocal(nowMs, Dates.DEFAULT_OFFSET_HOURS).fechaStr <==> d == Today(nowMs)
  {
    forall d ensures Dates.KeyOfDay(d) == Dates.KeyOfDay(Today(nowMs)) <==> d == Today(nowMs) {
      Dates.KeyOfDayInjective(d, Today(nowMs));
    }
  }

  /** Today's scheduled meals of an optional diet. */
  function ScheduledToday(dieta: Option<Diet>, nowMs: int): seq<MealSlot> {
    if dieta.None? then [] else ScheduledMeals(dieta.value.dias, Dates.NameOfDay(Today(nowMs)))
  }

  /** Step 3 of the diet tracker: the `(user, date)` day record
      `maybeSingle` finds, or a new one when it finds no single one. */
  function DayStep(t: Tables, idUsuario: int, idDieta: int, hoy: int): (DietDayCompliance, Tables) {
    var found := MaybeSingle(DayRecordsOf(t.dietDays, idUsuario, hoy));
    if found.Some? then (found.value, t)
    else
      var d := DietDayCompliance(t.nextId, idUsuario, idDieta, hoy, Dates.NameOfDay(hoy), INSERT_DEFAULT);
      (d, t.(dietDays := t.dietDays + [d], nextId := t.nextId + 1))
  }

  /** Step 4: the records of the scheduled meals that have none. */
  function MealStep(t: Tables, idUsuario: int, hoy: int, scheduled: seq<MealSlot>): Tables {
    var missing := MissingMealIds(scheduled, SelectMeals(t.meals, idUsuario, hoy, MealIds(scheduled)));
    t.(meals := t.meals + NewMealRecords(idUsuario, hoy, missing, t.nextId), nextId := t.nextId + |missing|)
  }

  /** The response of `getDietTrackerForToday` and the tables it leaves. */
  function DietTrackerOf(t: Tables, idUsuario: int, dieta: Option<Diet>, nowMs: int): (DietTracker, Tables) {
    var hoy := Today(nowMs);
    var scheduled := ScheduledToday(dieta, nowMs);
    if scheduled == [] then (DietTracker(Bool(false), None, []), t)
    else
      var (diaData, t1) := DayStep(t, idUsuario, dieta.value.id, hoy);
      var t2 := MealStep(t1, idUsuario, hoy, scheduled);
      (DietTracker(OrFalse(Some(diaData.cumplido)), Some(diaData.id),
                   MergeMeals(scheduled, SelectMeals(t2.meals, idUsuario, hoy, MealIds(scheduled)))),
       t2)
  }

  /** The response of `getRoutineTrackerForToday` and the tables it leaves. */
  function RoutineTrackerOf(t: Tables, rutinaActiva: Option<Routine>, nowMs: int): (RoutineTracker, Tables) {
    var hoy := Today(nowMs);
    var dia := if rutinaActiva.None? then None else FirstDayOn(rutinaActiva.value.dias, Dates.NameOfDay(hoy));
    if dia.None? then (RoutineTracker(None, Bool(false), None), t)
    else
      var found := MaybeSingle(RoutineRecordsOf(t.routineRecords, dia.value.id, hoy));
      if found.Some? then
        (RoutineTracker(dia, OrFalse(Some(found.value.cumplido)), Some(found.value.id)), t)
      else
        var registro := RoutineCompliance(t.nextId, dia.value.id, hoy, Bool(false));
        (RoutineTracker(dia, Bool(false), Some(t.nextId)),
         Tables(t.dietDays, t.meals, t.routineRecords + [registro], t.nextId + 1))
  }

  // --------------------------------------------------------- their outcome

  /** The day step leaves exactly one record for the day when there was at
      most one, and answers that record. */
  lemma DayStepLeavesOne(t: Tables, idUsuario: int, idDieta: int, hoy: int)
    requires |DayRecordsOf(t.dietDays, idUsuario, hoy)| <= 1
    ensures var (d, t1) := DayStep(t, idUsuario, idDieta, hoy);
      DayRecordsOf(t1.dietDays, idUsuario, hoy) == [d]
  {
    var found := MaybeSingle(DayRecordsOf(t.dietDays, idUsuario, hoy));
    if found.None? {
      DayRecordsOfAppend(t.dietDays, DayStep(t, idUsuario, idDieta, hoy).0, idUsuario, hoy);
    }
  }

  /** The day step answers the one `(user, date)` record when there is
      exactly one and writes nothing; otherwise it appends a fresh record for
      the user, the diet and the date, with the column's default, and
      answers that. */
  lemma DayStepOutcome(t: Tables, idUsuario: int, idDieta: int, hoy: int)
    ensures var (d, t1) := DayStep(t, idUsuario, idDieta, hoy);
      var recs := DayRecordsOf(t.dietDays, idUsuario, hoy);
      (|recs| == 1 ==> d == recs[0] && t1 == t)
      && (|recs| != 1 ==>
            d == DietDayCompliance(t.nextId, idUsuario, idDieta, hoy, Dates.NameOfDay(hoy), INSERT_DEFAULT)
            && t1 == t.(dietDays := t.dietDays + [d], nextId := t.nextId + 1))
  {
  }

  /** With no diet or nothing scheduled today the diet tracker answers
      `{ diaCumplido: false, comidasDeHoy: [] }` and writes nothing;
      otherwise it leaves a day record, creates exactly the missing meal
      records, and lists every scheduled meal with its record. */
  lemma DietTrackerOutcome(t: Tables, idUsuario: int, dieta: Option<Diet>, nowMs: int)
    ensures var (resp, t2) := DietTrackerOf(t, idUsuario, dieta, nowMs);
      ScheduledToday(dieta, nowMs) == [] ==> resp == DietTracker(Bool(false), None, []) && t2 == t
    ensures var (resp, t2) := DietTrackerOf(t, idUsuario, dieta, nowMs);
      var hoy := Today(nowMs);
      var scheduled := ScheduledToday(dieta, nowMs);
      var ids := MealIds(scheduled);
      scheduled != [] ==>
        |resp.comidasDeHoy| == |scheduled|
        && (forall k :: 0 <= k < |scheduled| ==>
              resp.comidasDeHoy[k].comida == scheduled[k] && resp.comidasDeHoy[k].idCumplimientoDieta.Some?)
        && (exists first :: t2.meals == t.meals + NewMealRecords(idUsuario, hoy,
              MissingMealIds(scheduled, SelectMeals(t.meals, idUsuario, hoy, ids)), first))
        && MissingMealIds(scheduled, SelectMeals(t2.meals, idUsuario, hoy, ids)) == []
        && |DayRecordsOf(t2.dietDays, idUsuario, hoy)| >= 1
        && (|DayRecordsOf(t.dietDays, idUsuario, hoy)| <= 1 ==>
              |DayRecordsOf(t2.dietDays, idUsuario, hoy)| == 1
              && resp.idCumplimientoDia == Some(DayRecordsOf(t2.dietDays, idUsuario, hoy)[0].id)
              && resp.diaCumplido == OrFalse(Some(DayRecordsOf(t2.dietDays, idUsuario, hoy)[0].cumplido)))
        && t2.routineRecords == t.routineRecords
        && (Truthy(resp.diaCumplido) || resp.diaCumplido == Bool(false))
    ensures var (resp, t2) := DietTrackerOf(t, idUsuario, dieta, nowMs);
      var hoy := Today(nowMs);
      var recs := DayRecordsOf(t.dietDays, idUsuario, hoy);
      ScheduledToday(dieta, nowMs) != [] ==>
        (|recs| == 1 ==>
           t2.dietDays == t.dietDays
           && resp.idCumplimientoDia == Some(recs[0].id)
           && resp.diaCumplido == OrFalse(Some(recs[0].cumplido)))
        && (|recs| != 1 ==>
           t2.dietDays == t.dietDays + [DietDayCompliance(t.nextId, idUsuario, dieta.value.id, hoy, Dates.NameOfDay(hoy), INSERT_DEFAULT)]
           && resp.idCumplimientoDia == Some(t.nextId)
           && resp.diaCumplido == Bool(false))
    ensures var (resp, t2) := DietTrackerOf(t, idUsuario, dieta, nowMs);
      var hoy := Today(nowMs);
      var scheduled := ScheduledToday(dieta, nowMs);
      var rows := SelectMeals(t2.meals, idUsuario, hoy, MealIds(scheduled));
      scheduled != [] ==>
        forall k, j :: 0 <= k < |scheduled| && FirstMatch(rows, scheduled[k].id, j) ==>
          resp.comidasDeHoy[k].idCumplimientoDieta == Some(rows[j].id)
          && (Truthy(rows[j].cumplido) ==> resp.comidasDeHoy[k].cumplido == rows[j].cumplido)
          && (!Truthy(rows[j].cumplido) ==> resp.comidasDeHoy[k].cumplido == Bool(false))
  {
    var hoy := Today(nowMs);
    var scheduled := ScheduledToday(dieta, nowMs);
    if scheduled != [] {
      var (d, t1) := DayStep(t, idUsuario, dieta.value.id, hoy);
      DayStepOutcome(t, idUsuario, dieta.value.id, hoy);
      if |DayRecordsOf(t.dietDays, idUsuario, hoy)| != 1 {
        DayRecordsOfAppend(t.dietDays, d, idUsuario, hoy);
      }
      ReconcileCompletes(scheduled, t.meals, idUsuario, hoy, t1.nextId);
    }
  }

  /** Once the day step has run on a day with at most one record, it finds
      that record and writes nothing, whatever else the tables hold. */
  lemma DayStepAgain(t: Tables, idUsuario: int, idDieta: int, hoy: int, t2: Tables)
    requires |DayRecordsOf(t.dietDays, idUsuario, hoy)| <= 1
    requires t2.dietDays == DayStep(t, idUsuario, idDieta, hoy).1.dietDays
    ensures DayStep(t2, idUsuario, idDieta, hoy) == (DayStep(t, idUsuario, idDieta, hoy).0, t2)
  {
    DayStepLeavesOne(t, idUsuario, idDieta, hoy);
  }

  /** Once the meal step has run, it finds nothing missing. */
  lemma MealStepAgain(t: Tables, idUsuario: int, hoy: int, scheduled: seq<MealSlot>)
    ensures var t2 := MealStep(t, idUsuario, hoy, scheduled);
      MealStep(t2, idUsuario, hoy, scheduled) == t2
  {
    ReconcileCompletes(scheduled, t.meals, idUsuario, hoy, t.nextId);
    var t2 := MealStep(t, idUsuario, hoy, scheduled);
    assert NewMealRecords(idUsuario, hoy, [], t2.nextId) == [];
  }

  /** Running the diet tracker again changes nothing and answers the same,
      provided the day had at most one record: `maybeSingle` sees the one
      record the first run found or made, and no meal is missing. */
  lemma DietTrackerIdempotent(t: Tables, idUsuario: int, dieta: Option<Diet>, nowMs: int)
    requires |DayRecordsOf(t.dietDays, idUsuario, Today(nowMs))| <= 1
    ensures var t2 := DietTrackerOf(t, idUsuario, dieta, nowMs).1;
      DietTrackerOf(t2, idUsuario, dieta, nowMs) == DietTrackerOf(t, idUsuario, dieta, nowMs)
  {
    var hoy := Today(nowMs);
    var scheduled := ScheduledToday(dieta, nowMs);
    if scheduled != [] {
      var (d, t1) := DayStep(t, idUsuario, dieta.value.id, hoy);
      var t2 := MealStep(t1, idUsuario, hoy, scheduled);
      DayStepAgain(t, idUsuario, dieta.value.id, hoy, t2);
      MealStepAgain(t1, idUsuario, hoy, scheduled);
    }
  }

  /** With two or more day records `maybeSingle` finds none, so every run
      adds yet another. */
  lemma DuplicateDayRecordsGrow(t: Tables, idUsuario: int, dieta: Option<Diet>, nowMs: int)
    requires ScheduledToday(dieta, nowMs) != []
    requires |DayRecordsOf(t.dietDays, idUsuario, Today(nowMs))| >= 2
    ensures |DietTrackerOf(t, idUsuario, dieta, nowMs).1.dietDays| == |t.dietDays| + 1
  {
  }

  /** The routine tracker answers `{ diaDeHoy: null, diaCumplido: false }`
      and writes nothing when no routine day falls on today; otherwise it
      answers today's first routine day and its one record, creating it with
      `cumplido: false` when `maybeSingle` finds none. */
  lemma RoutineTrackerOutcome(t: Tables, rutinaActiva: Option<Routine>, nowMs: int)
    ensures var (resp, t2) := RoutineTrackerOf(t, rutinaActiva, nowMs);
      var nombre := Dates.NameOfDay(Today(nowMs));
      rutinaActiva.None? || (forall k :: 0 <= k < |rutinaActiva.value.dias| ==> rutinaActiva.value.dias[k].diaSemana != nombre)
      ==> resp == RoutineTracker(None, Bool(false), None) && t2 == t
    ensures var (resp, t2) := RoutineTrackerOf(t, rutinaActiva, nowMs);
      var hoy := Today(nowMs);
      resp.diaDeHoy.Some? ==>
        var dia := resp.diaDeHoy.value;
        rutinaActiva.Some?
        && (exists k :: (0 <= k < |rutinaActiva.value.dias| && rutinaActiva.value.dias[k] == dia
                         && dia.diaSemana == Dates.NameOfDay(hoy)
                         && forall j :: 0 <= j < k ==> rutinaActiva.value.dias[j].diaSemana != dia.diaSemana))
        && |RoutineRecordsOf(t2.routineRecords, dia.id, hoy)| >= 1
        && (|RoutineRecordsOf(t.routineRecords, dia.id, hoy)| == 0 ==> |RoutineRecordsOf(t2.routineRecords, dia.id, hoy)| == 1)
        && (|RoutineRecordsOf(t.routineRecords, dia.id, hoy)| != 1 ==> resp.diaCumplido == Bool(false))
        && t2.dietDays == t.dietDays && t2.meals == t.meals
        && (Truthy(resp.diaCumplido) || resp.diaCumplido == Bool(false))
    ensures var (resp, t2) := RoutineTrackerOf(t, rutinaActiva, nowMs);
      var nombre := Dates.NameOfDay(Today(nowMs));
      rutinaActiva.Some? && (exists k :: 0 <= k < |rutinaActiva.value.dias| && rutinaActiva.value.dias[k].diaSemana == nombre)
      ==> resp.diaDeHoy.Some?
    ensures var (resp, t2) := RoutineTrackerOf(t, rutinaActiva, nowMs);
      var hoy := Today(nowMs);
      resp.diaDeHoy.Some? ==>
        var recs := RoutineRecordsOf(t.routineRecords, resp.diaDeHoy.value.id, hoy);
        (|recs| == 1 ==>
           t2 == t
           && resp.idCumplimientoRutina == Some(recs[0].id)
           && resp.diaCumplido == OrFalse(Some(recs[0].cumplido)))
        && (|recs| != 1 ==>
           t2.routineRecords == t.routineRecords + [RoutineCompliance(t.nextId, resp.diaDeHoy.value.id, hoy, Bool(false))]
           && resp.idCumplimientoRutina == Some(t.nextId))
  {
    var hoy := Today(nowMs);
    var (resp, t2) := RoutineTrackerOf(t, rutinaActiva, nowMs);
    if resp.diaDeHoy.Some? {
      var dia := resp.diaDeHoy.value;
      FirstDayOnIsFirst(rutinaActiva.value.dias, Dates.NameOfDay(hoy));
      RoutineRecordsOfAppend(t.routineRecords, RoutineCompliance(t.nextId, dia.id, hoy, Bool(false)), dia.id, hoy);
    }
  }

  /** Running the routine tracker again changes nothing and answers the
      same, provided today's day had at most one record. */
  lemma RoutineTrackerIdempotent(t: Tables, rutinaActiva: Option<Routine>, nowMs: int)
    requires rutinaActiva.Some? && FirstDayOn(rutinaActiva.value.dias, Dates.NameOfDay(Today(nowMs))).Some? ==>
      |RoutineRecordsOf(t.routineRecords, FirstDayOn(rutinaActiva.value.dias, Dates.NameOfDay(Today(nowMs))).value.id, Today(nowMs))| <= 1
    ensures var t2 := RoutineTrackerOf(t, rutinaActiva, nowMs).1;
      RoutineTrackerOf(t2, rutinaActiva, nowMs) == RoutineTrackerOf(t, rutinaActiva, nowMs)
  {
    var hoy := Today(nowMs);
    if rutinaActiva.Some? && FirstDayOn(rutinaActiva.value.dias, Dates.NameOfDay(hoy)).Some? {
      var dia := FirstDayOn(rutinaActiva.value.dias, Dates.NameOfDay(hoy)).value;
      RoutineRecordsOfAppend(t.routineRecords, RoutineCompliance(t.nextId, dia.id, hoy, Bool(false)), dia.id, hoy);
    }
  }

  // --------------------------------------------------------------- the store

  /** The three compliance tables, updated in place by the two handlers. */
  class ComplianceStore {
    var dietDays: seq<DietDayCompliance>
    var meals: seq<MealCompliance>
    var routineRecords: seq<RoutineCompliance>
    var nextId: int

    /** The tables as a value. */
    function Snapshot(): Tables
      reads this
    {
      Tables(dietDays, meals, routineRecords, nextId)
    }

    ghost predicate Valid()
      reads this
    {
      IdsBelow(Snapshot())
    }

    constructor ()
      ensures Valid()
      ensures dietDays == [] && meals == [] && routineRecords == []
    {
      dietDays := [];
      meals := [];
      routineRecords := [];
      nextId := 1;
    }

    /** Step 3: the `(user, date)` day record, inserted when `maybeSingle`
        finds no single one. */
    method EnsureDayRecord(idUsuario: int, idDieta: int, hoy: int)
      returns (diaData: DietDayCompliance)
      requires Valid()
      modifies this
      ensures Valid()
      ensures (diaData, Snapshot()) == DayStep(old(Snapshot()), idUsuario, idDieta, hoy)
    {
      var found := MaybeSingle(DayRecordsOf(dietDays, idUsuario, hoy));
      if found.Some? {
        diaData := found.value;
      } else {
        diaData := DietDayCompliance(nextId, idUsuario, idDieta, hoy, Dates.NameOfDay(hoy), INSERT_DEFAULT);
        dietDays := dietDays + [diaData];
        nextId := nextId + 1;
      }
    }

    /** `.insert(comidasACrear)`: one record per id, `cumplido` unset. */
    method InsertMeals(idUsuario: int, hoy: int, ids: seq<int>)
      requires Valid()
      modifies this
      ensures Valid()
      ensures meals == old(meals) + NewMealRecords(idUsuario, hoy, ids, old(nextId))
      ensures nextId == old(nextId) + |ids|
      ensures dietDays == old(dietDays) && routineRecords == old(routineRecords)
    {
      meals := meals + NewMealRecords(idUsuario, hoy, ids, nextId);
      nextId := nextId + |ids|;
    }

    /** `getDietTrackerForToday`. */
    method GetDietTrackerForToday(idUsuario: int, dieta: Option<Diet>, nowMs: int) returns (resp: DietTracker)
      requires Valid()
      modifies this
      ensures Valid()
      ensures (resp, Snapshot()) == DietTrackerOf(old(Snapshot()), idUsuario, dieta, nowMs)
    {
      // the day and weekday name `getFechaLocal()` gives (Dates.GetFechaLocal)
      var fechaHoy := Today(nowMs);
      var nombreDiaHoy := Dates.NameOfDay(fechaHoy);
      if dieta.None? {
        return DietTracker(Bool(false), None, []);
      }
      var comidasProgramadas := ScheduledMeals(dieta.value.dias, nombreDiaHoy);
      if |comidasProgramadas| == 0 {
        return DietTracker(Bool(false), None, []);
      }

      var diaData := EnsureDayRecord(idUsuario, dieta.value.id, fechaHoy);
      ghost var t1 := Snapshot();

      var idsComidas := MealIds(comidasProgramadas);
      var comidasData := SelectMeals(meals, idUsuario, fechaHoy, idsComidas);
      var comidasACrear := CollectMissing(comidasProgramadas, comidasData);
      if |comidasACrear| > 0 {
        InsertMeals(idUsuario, fechaHoy, comidasACrear);
      } else {
        assert NewMealRecords(idUsuario, fechaHoy, comidasACrear, t1.nextId) == [];
        assert meals == meals + NewMealRecords(idUsuario, fechaHoy, comidasACrear, t1.nextId);
      }
      assert Snapshot() == MealStep(t1, idUsuario, fechaHoy, comidasProgramadas);

      var finalComidasData := SelectMeals(meals, idUsuario, fechaHoy, idsComidas);
      var comidasDeHoy := MergeMeals(comidasProgramadas, finalComidasData);
      resp := DietTracker(OrFalse(Some(diaData.cumplido)), Some(diaData.id), comidasDeHoy);
    }

    /** `getRoutineTrackerForToday`. */
    method GetRoutineTrackerForToday(rutinaActiva: Option<Routine>, nowMs: int) returns (resp: RoutineTracker)
      requires Valid()
      modifies this
      ensures Valid()
      ensures (resp, Snapshot()) == RoutineTrackerOf(old(Snapshot()), rutinaActiva, nowMs)
    {
      // the day and weekday name `getFechaLocal()` gives (Dates.GetFechaLocal)
      var fechaHoy := Today(nowMs);
      var nombreDiaHoy := Dates.NameOfDay(fechaHoy);
      if rutinaActiva.None? {
        return RoutineTracker(None, Bool(false), None);
      }
      var rutinaDiaDeHoy := FirstDayOn(rutinaActiva.value.dias, nombreDiaHoy);
      if rutinaDiaDeHoy.None? {
        return RoutineTracker(None, Bool(false), None);
      }
      var dia := rutinaDiaDeHoy.value;
      var cumplimiento := MaybeSingle(RoutineRecordsOf(routineRecords, dia.id, fechaHoy));
      var registro: RoutineCompliance;
      if cumplimiento.Some? {
        registro := cumplimiento.value;
      } else {
        registro := RoutineCompliance(nextId, dia.id, fechaHoy, Bool(false));
        routineRecords := routineRecords + [registro];
        nextId := nextId + 1;
      }
      resp := RoutineTracker(Some(dia), OrFalse(Some(registro.cumplido)), Some(registro.id));
    }
  }
}
