/** controllers/rutina.controller.ts: the streak and calendar of the active
    routine, and the two handlers that write a whole routine (create it with
    its days and exercises, or update it by a weekday diff). */
module Rutina {

  import opened JsValues
  import opened Records
  import opened Adherence

  // ----------------------------------------------- streak and calendar

  /** The guard of the streak section: an active routine with at least one
      day. */
  predicate HasScheduledDays(rutinaActiva: Option<Routine>) {
    rutinaActiva.Some? && |rutinaActiva.value.dias| > 0
  }

  /** The routine's compliance log: the rows of all its day ids (not filtered
      for truthiness), keyed by date. */
  function RoutineLog(rutina: Routine, cumplimientoRutina: seq<RoutineCompliance>): Log {
    BuildLog(RoutinePairs(SelectByDayIds(cumplimientoRutina, DayIds(rutina.dias))))
  }

  /** The racha and calendario of `getRutinasCompletasUsuario`; both tests
      are truthiness. */
  method GetRutinasCompletasUsuario(rutinaActiva: Option<Routine>, cumplimientoRutina: seq<RoutineCompliance>, today: int)
    returns (racha: nat, calendario: seq<CalendarDay>)
    ensures racha <= LOOKBACK
    ensures !HasScheduledDays(rutinaActiva) ==> racha == 0 && calendario == []
    ensures HasScheduledDays(rutinaActiva) ==>
      racha == Streak(RoutineWeekdays(rutinaActiva.value.dias), RoutineLog(rutinaActiva.value, cumplimientoRutina),
                      today, IfTruthy, IfTruthy)
    ensures HasScheduledDays(rutinaActiva) ==>
      |calendario| == CALENDAR_DAYS
      && calendario[CALENDAR_DAYS - 1].fecha == today
      && forall k :: 0 <= k < |calendario| ==>
        calendario[k].fecha == today - (CALENDAR_DAYS - 1) + k
        && calendario[k].status == StatusOf(RoutineWeekdays(rutinaActiva.value.dias),
                                            RoutineLog(rutinaActiva.value, cumplimientoRutina), today, calendario[k].fecha)
  {
    racha := 0;
    calendario := [];
    if HasScheduledDays(rutinaActiva) {
      var diasConRutina := RoutineWeekdays(rutinaActiva.value.dias);
      var cumplimientosMap := RoutineLog(rutinaActiva.value, cumplimientoRutina);
      racha := ComputeStreak(diasConRutina, cumplimientosMap, today, IfTruthy, IfTruthy);
      StreakBounds(diasConRutina, cumplimientosMap, today, IfTruthy, IfTruthy);
      calendario := BuildCalendar(diasConRutina, cumplimientosMap, today);
    }
  }

  // ------------------------------------------------------------ the tables

  /** A `rutina` row. */
  datatype RoutineRow = RoutineRow(idUsuario: int, nombre: string)

  /** A `rutina_dia_semana` row. */
  datatype DayRow = DayRow(id: int, idRutina: int, diaSemana: string)

  /** A day of a request body: its weekday and its exercise list (a missing
      list is the empty one; both insert nothing). */
  datatype NewDay = NewDay(diaSemana: string, ejercicios: seq<Exercise>)

  /** The `rutina_dia_semana_ejercicio` table grouped by day id: every query
      and every delete selects it by `id_rutina_dia_semana`. */
  type ExerciseTable = map<int, seq<Exercise>>

  /** `.eq("id_rutina_dia_semana", idDia)` on the exercise table. */
  function ExercisesOf(t: ExerciseTable, idDia: int): seq<Exercise> {
    if idDia in t then t[idDia] else []
  }

  /** `.delete().in("id_rutina_dia_semana", ids)` on the day table. */
  function WithoutIds(rows: seq<DayRow>, ids: seq<int>): (r: seq<DayRow>)
    ensures forall x :: x in r <==> x in rows && x.id !in ids
    ensures |r| <= |rows|
  {
    if rows == [] then []
    else
      var init := rows[..|rows| - 1];
      var last := rows[|rows| - 1];
      assert rows == init + [last];
      if last.id in ids then WithoutIds(init, ids) else WithoutIds(init, ids) + [last]
  }

  /** The day rows created for `dias`, one after another from id `first`. */
  function CreatedDays(dias: seq<NewDay>, idRutina: int, first: int): (rows: seq<DayRow>)
    ensures |rows| == |dias|
  {
    if dias == [] then []
    else CreatedDays(dias[..|dias| - 1], idRutina, first) + [DayRow(first + |dias| - 1, idRutina, dias[|dias| - 1].diaSemana)]
  }

  /** The `k`-th created row has id `first + k` and the `k`-th weekday. */
  lemma {:induction false} CreatedDaysAt(dias: seq<NewDay>, idRutina: int, first: int)
    ensures forall k :: 0 <= k < |dias| ==> CreatedDays(dias, idRutina, first)[k] == DayRow(first + k, idRutina, dias[k].diaSemana)
  {
    if dias != [] {
      CreatedDaysAt(dias[..|dias| - 1], idRutina, first);
    }
  }

  lemma CreatedDaysStep(dias: seq<NewDay>, d: NewDay, idRutina: int, first: int)
    ensures CreatedDays(dias + [d], idRutina, first)
         == CreatedDays(dias, idRutina, first) + [DayRow(first + |dias|, idRutina, d.diaSemana)]
  {
    assert (dias + [d])[..|dias|] == dias;
  }

  /** The store behind the three routine tables; ids come from one counter,
      as a serial column would hand them out. */
  class RoutineStore {
    var routines: map<int, RoutineRow>
    var days: seq<DayRow>
    var exercises: ExerciseTable
    var nextId: int

    /** Ids are positive and below the counter, day ids are unique, and every
        exercise row points below the counter. */
    predicate Valid()
      reads this
    {
      1 <= nextId
      && (forall id :: id in routines ==> 1 <= id < nextId)
      && DayIdsBelow(days, nextId)
      && UniqueDayIds(days)
      && (forall id :: id in exercises ==> id < nextId)
    }

    constructor ()
      ensures Valid()
      ensures routines == map[] && days == [] && exercises == map[] && nextId == 1
    {
      routines := map[];
      days := [];
      exercises := map[];
      nextId := 1;
    }

    method InsertRoutine(idUsuario: int, nombre: string) returns (id: int)
      requires Valid()
      modifies this
      ensures Valid()
      ensures id == old(nextId) && nextId == id + 1
      ensures routines == old(routines)[id := RoutineRow(idUsuario, nombre)]
      ensures days == old(days) && exercises == old(exercises)
    {
      id := nextId;
      routines := routines[id := RoutineRow(idUsuario, nombre)];
      nextId := nextId + 1;
    }

    /** `.update({ nombre_rutina }).eq("id_rutina", id)`: no row, no change. */
    method UpdateRoutineName(id: int, nombre: string)
      requires Valid()
      modifies this
      ensures Valid()
      ensures routines == if id in old(routines) then old(routines)[id := old(routines)[id].(nombre := nombre)] else old(routines)
      ensures days == old(days) && exercises == old(exercises) && nextId == old(nextId)
    {
      if id in routines {
        routines := routines[id := routines[id].(nombre := nombre)];
      }
    }

    method InsertDay(idRutina: int, diaSemana: string) returns (id: int)
      requires Valid()
      modifies this
      ensures Valid()
      ensures id == old(nextId) && nextId == id + 1
      ensures days == old(days) + [DayRow(id, idRutina, diaSemana)]
      ensures routines == old(routines) && exercises == old(exercises)
    {
      id := nextId;
      days := days + [DayRow(id, idRutina, diaSemana)];
      nextId := nextId + 1;
    }

    method DeleteDays(ids: seq<int>)
      requires Valid()
      modifies this
      ensures Valid()
      ensures days == WithoutIds(old(days), ids)
      ensures routines == old(routines) && exercises == old(exercises) && nextId == old(nextId)
    {
      var d := WithoutIds(days, ids);
      assert forall k :: 0 <= k < |d| ==> d[k] in days;
      DeleteKeepsUniqueIds(days, ids);
      days := d;
    }

    method InsertExercises(idDia: int, es: seq<Exercise>)
      requires Valid() && idDia < nextId
      modifies this
      ensures Valid()
      ensures exercises == old(exercises)[idDia := ExercisesOf(old(exercises), idDia) + es]
      ensures routines == old(routines) && days == old(days) && nextId == old(nextId)
    {
      exercises := exercises[idDia := ExercisesOf(exercises, idDia) + es];
    }

    method DeleteExercisesOf(idDia: int)
      requires Valid()
      modifies this
      ensures Valid()
      ensures exercises == old(exercises) - {idDia}
      ensures routines == old(routines) && days == old(days) && nextId == old(nextId)
    {
      exercises := exercises - {idDia};
    }

    /** One day of a body that has no day row yet: the day row, then its
        exercises when the list is not empty. */
    method CreateDay(idRutina: int, dia: NewDay) returns (idDia: int)
      requires Valid()
      modifies this
      ensures Valid()
      ensures idDia == old(nextId) && nextId == idDia + 1
      ensures days == old(days) + [DayRow(idDia, idRutina, dia.diaSemana)]
      ensures exercises == Put(old(exercises), idDia, dia.ejercicios)
      ensures routines == old(routines)
    {
      idDia := InsertDay(idRutina, dia.diaSemana);
      if |dia.ejercicios| > 0 {
        InsertExercises(idDia, dia.ejercicios);
      }
    }

    /** One day of a body whose weekday already has a day row: its exercises
        are deleted, then the new list (if not empty) inserted. */
    method ReplaceExercises(idDia: int, ejercicios: seq<Exercise>)
      requires Valid() && idDia < nextId
      modifies this
      ensures Valid()
      ensures exercises == Put(old(exercises) - {idDia}, idDia, ejercicios)
      ensures routines == old(routines) && days == old(days) && nextId == old(nextId)
    {
      DeleteExercisesOf(idDia);
      if |ejercicios| > 0 {
        InsertExercises(idDia, ejercicios);
      }
    }

    /** `crearRutinaCompleta`: the routine, then for each day of the body a
        day row and, when its list is not empty, its exercises. */
    method CrearRutinaCompleta(nombre: string, idUsuario: int, dias: seq<NewDay>) returns (status: int, idRutina: int)
      requires Valid()
      modifies this
      ensures Valid()
      ensures status == 201
      ensures idRutina == old(nextId) && idRutina !in old(routines)
      ensures routines == old(routines)[idRutina := RoutineRow(idUsuario, nombre)]
      ensures days == old(days) + CreatedDays(dias, idRutina, idRutina + 1)
      ensures nextId == idRutina + 1 + |dias|
      ensures exercises == AfterCreate(old(exercises), dias, idRutina + 1)
    {
      idRutina := InsertRoutine(idUsuario, nombre);
      ghost var routines1 := routines;
      for j := 0 to |dias|
        invariant Valid()
        invariant routines == routines1
        invariant nextId == idRutina + 1 + j
        invariant days == old(days) + CreatedDays(dias[..j], idRutina, idRutina + 1)
        invariant exercises == AfterCreate(old(exercises), dias[..j], idRutina + 1)
      {
        var dia := dias[j];
        assert dias[..j + 1] == dias[..j] + [dia];
        assert dias[..j + 1][..j] == dias[..j];
        CreatedDaysStep(dias[..j], dia, idRutina, idRutina + 1);
        var idDia := CreateDay(idRutina, dia);
      }
      assert dias[..|dias|] == dias;
      status := 201;
    }

    /** `actualizarRutinaCompleta`: 400 when the id does not parse; otherwise
        rename, drop the old days whose weekday the body no longer has, then
        for each day of the body either replace the exercises of the old day
        that weekday maps to, or create a day with its exercises. */
    method ActualizarRutinaCompleta(idParam: Option<int>, nombre: string, diasNuevos: seq<NewDay>) returns (status: int)
      requires Valid()
      modifies this
      ensures Valid()
      ensures idParam.None? ==>
        status == 400 && routines == old(routines) && days == old(days)
        && exercises == old(exercises) && nextId == old(nextId)
      ensures idParam.Some? ==>
        var R := idParam.value;
        var m := WeekdayIds(DaysOfRoutine(old(days), R));
        status == 200
        && routines == (if R in old(routines) then old(routines)[R := old(routines)[R].(nombre := nombre)] else old(routines))
        && days == WithoutIds(old(days), IdsToDelete(DaysOfRoutine(old(days), R), NewWeekdays(diasNuevos)))
                   + CreatedDays(FreshDays(diasNuevos, m), R, old(nextId))
        && nextId == old(nextId) + |FreshDays(diasNuevos, m)|
        && exercises == AfterUpdate(old(exercises), diasNuevos, m, old(nextId))
    {
      if idParam.None? {
        return 400;
      }
      var idRutina := idParam.value;
      UpdateRoutineName(idRutina, nombre);
      var diasViejos := DaysOfRoutine(days, idRutina);
      var diasViejosMap := WeekdayIds(diasViejos);
      var diasNuevosSet := NewWeekdays(diasNuevos);
      var idsDiasAEliminar := IdsToDelete(diasViejos, diasNuevosSet);
      WeekdayIdsOfStore(idRutina);
      if |idsDiasAEliminar| > 0 {
        DeleteDays(idsDiasAEliminar);
      } else {
        WithoutNoIds(days);
      }
      ApplyNewDays(idRutina, diasNuevos, diasViejosMap);
      status := 200;
    }

    /** The loop of `actualizarRutinaCompleta` over the body's days, given
        the weekday map of the old days. */
    method ApplyNewDays(idRutina: int, diasNuevos: seq<NewDay>, diasViejosMap: map<string, int>)
      requires Valid()
      requires forall w :: w in diasViejosMap ==> diasViejosMap[w] < nextId
      modifies this
      ensures Valid()
      ensures routines == old(routines)
      ensures days == old(days) + CreatedDays(FreshDays(diasNuevos, diasViejosMap), idRutina, old(nextId))
      ensures nextId == old(nextId) + |FreshDays(diasNuevos, diasViejosMap)|
      ensures exercises == AfterUpdate(old(exercises), diasNuevos, diasViejosMap, old(nextId))
    {
      assert diasNuevos[..0] == [];
      for k := 0 to |diasNuevos|
        invariant Valid()
        invariant routines == old(routines)
        invariant Applied(idRutina, diasNuevos[..k], diasViejosMap, old(days), old(exercises), old(nextId))
      {
        assert diasNuevos[..k + 1] == diasNuevos[..k] + [diasNuevos[k]];
        ApplyNewDay(idRutina, diasNuevos[k], diasViejosMap, diasNuevos[..k], old(days), old(exercises), old(nextId));
      }
      assert diasNuevos[..|diasNuevos|] == diasNuevos;
    }

    /** The store once the days `prefix` of the body have been applied to
        the tables `days0`, `ex0` with the counter at `n0`. */
    ghost predicate Applied(idRutina: int, prefix: seq<NewDay>, m: map<string, int>,
                            days0: seq<DayRow>, ex0: ExerciseTable, n0: int)
      reads this
    {
      days == days0 + CreatedDays(FreshDays(prefix, m), idRutina, n0)
      && nextId == n0 + |FreshDays(prefix, m)|
      && exercises == AfterUpdate(ex0, prefix, m, n0)
    }

    /** One iteration of the loop over the body's days. */
    method ApplyNewDay(idRutina: int, diaNuevo: NewDay, diasViejosMap: map<string, int>,
                       ghost prefix: seq<NewDay>, ghost days0: seq<DayRow>, ghost ex0: ExerciseTable, ghost n0: int)
      requires Valid() && Applied(idRutina, prefix, diasViejosMap, days0, ex0, n0)
      requires forall w :: w in diasViejosMap ==> diasViejosMap[w] < n0
      modifies this
      ensures Valid() && Applied(idRutina, prefix + [diaNuevo], diasViejosMap, days0, ex0, n0)
      ensures routines == old(routines)
    {
      AfterUpdateStep(ex0, prefix, diaNuevo, diasViejosMap, n0);
      ghost var created := FreshDays(prefix, diasViejosMap);
      ghost var t0 := AfterUpdate(ex0, prefix, diasViejosMap, n0);
      if diaNuevo.diaSemana in diasViejosMap && IdTruthy(diasViejosMap[diaNuevo.diaSemana]) {
        var idDiaExistente := diasViejosMap[diaNuevo.diaSemana];
        assert FreshDays(prefix + [diaNuevo], diasViejosMap) == created;
        ReplaceExercises(idDiaExistente, diaNuevo.ejercicios);
        assert exercises == Put(t0 - {idDiaExistente}, idDiaExistente, diaNuevo.ejercicios);
      } else {
        assert FreshDays(prefix + [diaNuevo], diasViejosMap) == created + [diaNuevo];
        CreatedDaysStep(created, diaNuevo, idRutina, n0);
        var idNuevo := CreateDay(idRutina, diaNuevo);
        assert idNuevo == n0 + |created|;
        assert exercises == Put(t0, n0 + |created|, diaNuevo.ejercicios);
      }
    }

    /** The weekday map of a routine's days holds ids below the counter, and
        different weekdays map to different ids. */
    lemma WeekdayIdsOfStore(idRutina: int)
      requires Valid()
      ensures forall w :: w in WeekdayIds(DaysOfRoutine(days, idRutina)) ==>
        1 <= WeekdayIds(DaysOfRoutine(days, idRutina))[w] < nextId
      ensures WeekdayIdsDistinct(WeekdayIds(DaysOfRoutine(days, idRutina)))
    {
      WeekdayIdsOfUniqueRows(days, idRutina, nextId);
    }
  }

  /** Every day id is positive and below `bound`. */
  predicate DayIdsBelow(days: seq<DayRow>, bound: int) {
    forall k :: 0 <= k < |days| ==> 1 <= days[k].id < bound
  }

  /** No two day rows share an id. */
  predicate UniqueDayIds(days: seq<DayRow>) {
    forall k, l :: 0 <= k < |days| && 0 <= l < |days| && days[k].id == days[l].id ==> k == l
  }

  lemma WeekdayIdsOfUniqueRows(days: seq<DayRow>, idRutina: int, bound: int)
    requires DayIdsBelow(days, bound) && UniqueDayIds(days)
    ensures forall w :: w in WeekdayIds(DaysOfRoutine(days, idRutina)) ==>
      1 <= WeekdayIds(DaysOfRoutine(days, idRutina))[w] < bound
    ensures WeekdayIdsDistinct(WeekdayIds(DaysOfRoutine(days, idRutina)))
  {
    var m := WeekdayIds(DaysOfRoutine(days, idRutina));
    forall w | w in m ensures 1 <= m[w] < bound {
      var i := RowOfWeekdayId(days, idRutina, w);
    }
    forall w1, w2 | w1 in m && w2 in m && w1 != w2 ensures m[w1] != m[w2] {
      var i1 := RowOfWeekdayId(days, idRutina, w1);
      var i2 := RowOfWeekdayId(days, idRutina, w2);
    }
  }

  /** The row a weekday of the map comes from. */
  lemma RowOfWeekdayId(days: seq<DayRow>, idRutina: int, w: string) returns (i: int)
    requires w in WeekdayIds(DaysOfRoutine(days, idRutina))
    ensures 0 <= i < |days| && days[i].diaSemana == w && days[i].id == WeekdayIds(DaysOfRoutine(days, idRutina))[w]
  {
    var rows := DaysOfRoutine(days, idRutina);
    var k :| 0 <= k < |rows| && rows[k].diaSemana == w && rows[k].id == WeekdayIds(rows)[w];
    assert rows[k] in days;
    i :| 0 <= i < |days| && days[i] == rows[k];
  }

  // ----------------------------------------------- the update's diff

  /** `rutina_dia_semana ... .eq("id_rutina", id)`: the routine's days. */
  function DaysOfRoutine(days: seq<DayRow>, idRutina: int): (rows: seq<DayRow>)
    ensures forall r :: r in rows <==> r in days && r.idRutina == idRutina
  {
    if days == [] then []
    else
      var init := days[..|days| - 1];
      var last := days[|days| - 1];
      assert days == init + [last];
      if last.idRutina == idRutina then DaysOfRoutine(init, idRutina) + [last] else DaysOfRoutine(init, idRutina)
  }

  /** `new Map(diasViejos.map(d => [d.dia_semana, d.id_rutina_dia_semana]))`:
      every weekday of the old days, mapped to the id of its last day. */
  function WeekdayIds(rows: seq<DayRow>): (m: map<string, int>)
    ensures forall w :: w in m <==> exists k :: 0 <= k < |rows| && rows[k].diaSemana == w
    ensures forall w :: w in m ==> exists k :: 0 <= k < |rows| && rows[k].diaSemana == w && rows[k].id == m[w]
  {
    if rows == [] then map[]
    else
      var init := rows[..|rows| - 1];
      var last := rows[|rows| - 1];
      var m0 := WeekdayIds(init);
      var m := m0[last.diaSemana := last.id];
      assert forall k :: 0 <= k < |init| ==> init[k] == rows[k];
      assert forall w :: w in m0 ==> exists k :: 0 <= k < |rows| - 1 && rows[k].diaSemana == w && rows[k].id == m0[w];
      m
  }

  /** The last day with a weekday decides the id that weekday maps to. */
  lemma {:induction false} WeekdayIdsLastWins(rows: seq<DayRow>, k: int)
    requires 0 <= k < |rows| && LastOfWeekday(rows, k)
    ensures WeekdayIds(rows)[rows[k].diaSemana] == rows[k].id
  {
    if k < |rows| - 1 {
      var init := rows[..|rows| - 1];
      assert init[k] == rows[k];
      WeekdayIdsLastWins(init, k);
    }
  }

  /** `rows[k]` is the last row with its weekday. */
  predicate LastOfWeekday(rows: seq<DayRow>, k: int)
    requires 0 <= k < |rows|
  {
    forall l :: k < l < |rows| ==> rows[l].diaSemana != rows[k].diaSemana
  }

  predicate WeekdayIdsDistinct(m: map<string, int>) {
    forall w1, w2 :: w1 in m && w2 in m && w1 != w2 ==> m[w1] != m[w2]
  }

  /** `new Set(diasNuevos.map(d => d.dia_semana))`. */
  function NewWeekdays(dias: seq<NewDay>): set<string> {
    set k | 0 <= k < |dias| :: dias[k].diaSemana
  }

  /** The ids of the old days whose weekday the body no longer has, in order. */
  function IdsToDelete(rows: seq<DayRow>, nuevos: set<string>): (ids: seq<int>)
    ensures forall x :: x in ids <==> exists k :: 0 <= k < |rows| && rows[k].diaSemana !in nuevos && rows[k].id == x
  {
    if rows == [] then []
    else
      var init := rows[..|rows| - 1];
      var last := rows[|rows| - 1];
      assert forall k :: 0 <= k < |init| ==> init[k] == rows[k];
      if last.diaSemana !in nuevos then IdsToDelete(init, nuevos) + [last.id] else IdsToDelete(init, nuevos)
  }

  /** A weekday that maps to an existing (truthy) day id. */
  predicate Existing(m: map<string, int>, w: string) {
    w in m && IdTruthy(m[w])
  }

  /** The body's days that create a new day row, in order. */
  function FreshDays(dias: seq<NewDay>, m: map<string, int>): (r: seq<NewDay>)
    ensures |r| <= |dias|
  {
    if dias == [] then []
    else
      var init := dias[..|dias| - 1];
      var last := dias[|dias| - 1];
      assert dias == init + [last];
      if Existing(m, last.diaSemana) then FreshDays(init, m) else FreshDays(init, m) + [last]
  }

  /** A day of the body creates a row exactly when its weekday has no
      existing id. */
  lemma {:induction false} FreshDaysMembers(dias: seq<NewDay>, m: map<string, int>)
    ensures forall x :: x in FreshDays(dias, m) <==> x in dias && !Existing(m, x.diaSemana)
  {
    if dias != [] {
      var init := dias[..|dias| - 1];
      FreshDaysMembers(init, m);
      assert dias == init + [dias[|dias| - 1]];
    }
  }

  /** The exercise list of the last day of the body with weekday `w`. */
  function LastExercises(dias: seq<NewDay>, w: string): seq<Exercise> {
    if dias == [] then []
    else if dias[|dias| - 1].diaSemana == w then dias[|dias| - 1].ejercicios
    else LastExercises(dias[..|dias| - 1], w)
  }

  lemma PrefixStep(dias: seq<NewDay>, d: NewDay, m: map<string, int>)
    ensures (dias + [d])[..|dias|] == dias
    ensures FreshDays(dias + [d], m) == if Existing(m, d.diaSemana) then FreshDays(dias, m) else FreshDays(dias, m) + [d]
    ensures NewWeekdays(dias + [d]) == NewWeekdays(dias) + {d.diaSemana}
    ensures forall w :: LastExercises(dias + [d], w) == if w == d.diaSemana then d.ejercicios else LastExercises(dias, w)
  {
    var s := dias + [d];
    assert s[..|s| - 1] == dias;
    var a := NewWeekdays(s);
    forall x | x in a ensures x in NewWeekdays(dias) + {d.diaSemana} {
      var k :| 0 <= k < |s| && s[k].diaSemana == x;
      if k < |dias| {
        assert dias[k].diaSemana == x;
      }
    }
    forall x | x in NewWeekdays(dias) ensures x in a {
      var k :| 0 <= k < |dias| && dias[k].diaSemana == x;
      assert s[k].diaSemana == x;
    }
    assert s[|dias|].diaSemana == d.diaSemana;
  }

  /** The weekdays of a routine's day rows. */
  function WeekdaysOfRoutine(rows: seq<DayRow>, idRutina: int): set<string> {
    set r | r in rows && r.idRutina == idRutina :: r.diaSemana
  }

  /** The delete removes exactly the routine's old days whose weekday the
      body no longer has; every other row stays. */
  lemma DeletedDays(days: seq<DayRow>, idRutina: int, nuevos: set<string>)
    requires UniqueDayIds(days)
    ensures forall r :: r in WithoutIds(days, IdsToDelete(DaysOfRoutine(days, idRutina), nuevos)) <==>
      r in days && (r.idRutina != idRutina || r.diaSemana in nuevos)
  {
    var old_ := DaysOfRoutine(days, idRutina);
    var del := IdsToDelete(old_, nuevos);
    forall r | r in days
      ensures r.id in del <==> r.idRutina == idRutina && r.diaSemana !in nuevos
    {
      if r.id in del {
        var k :| 0 <= k < |old_| && old_[k].diaSemana !in nuevos && old_[k].id == r.id;
        assert old_[k] in days;
        var i :| 0 <= i < |days| && days[i] == r;
        var i2 :| 0 <= i2 < |days| && days[i2] == old_[k];
      }
      if r.idRutina == idRutina && r.diaSemana !in nuevos {
        assert r in old_;
        var k :| 0 <= k < |old_| && old_[k] == r;
      }
    }
  }

  /** Every kept weekday keeps its day row, under its old id. */
  lemma KeptWeekdaysKeepIds(days: seq<DayRow>, idRutina: int, diasNuevos: seq<NewDay>, w: string)
    requires UniqueDayIds(days)
    requires w in WeekdayIds(DaysOfRoutine(days, idRutina)) && w in NewWeekdays(diasNuevos)
    ensures DayRow(WeekdayIds(DaysOfRoutine(days, idRutina))[w], idRutina, w)
      in WithoutIds(days, IdsToDelete(DaysOfRoutine(days, idRutina), NewWeekdays(diasNuevos)))
  {
    var i := RowOfWeekdayId(days, idRutina, w);
    var rows := DaysOfRoutine(days, idRutina);
    var k :| 0 <= k < |rows| && rows[k].diaSemana == w && rows[k].id == WeekdayIds(rows)[w];
    assert rows[k] in days;
    assert rows[k] == DayRow(WeekdayIds(rows)[w], idRutina, w);
    DeletedDays(days, idRutina, NewWeekdays(diasNuevos));
  }

  /** After the update the routine's days carry exactly the body's weekdays,
      and no other routine's days change. */
  lemma UpdatedWeekdays(days: seq<DayRow>, idRutina: int, diasNuevos: seq<NewDay>, n0: int)
    requires UniqueDayIds(days) && DayIdsBelow(days, n0)
    ensures var m := WeekdayIds(DaysOfRoutine(days, idRutina));
      var after := WithoutIds(days, IdsToDelete(DaysOfRoutine(days, idRutina), NewWeekdays(diasNuevos)))
                   + CreatedDays(FreshDays(diasNuevos, m), idRutina, n0);
      WeekdaysOfRoutine(after, idRutina) == NewWeekdays(diasNuevos)
      && forall r: DayRow :: r.idRutina != idRutina ==> (r in after <==> r in days)
  {
    var m := WeekdayIds(DaysOfRoutine(days, idRutina));
    var S := NewWeekdays(diasNuevos);
    var kept := WithoutIds(days, IdsToDelete(DaysOfRoutine(days, idRutina), S));
    var fresh_ := FreshDays(diasNuevos, m);
    var created := CreatedDays(fresh_, idRutina, n0);
    var after := kept + created;
    DeletedDays(days, idRutina, S);
    CreatedDaysAt(fresh_, idRutina, n0);
    FreshDaysMembers(diasNuevos, m);
    forall r | r in created ensures r.idRutina == idRutina && r.diaSemana in S {
      var k :| 0 <= k < |created| && created[k] == r;
      assert fresh_[k] in fresh_;
      var j :| 0 <= j < |diasNuevos| && diasNuevos[j] == fresh_[k];
    }
    forall w | w in S ensures w in WeekdaysOfRoutine(after, idRutina) {
      if Existing(m, w) {
        KeptWeekdaysKeepIds(days, idRutina, diasNuevos, w);
        assert DayRow(m[w], idRutina, w) in after;
      } else {
        var j :| 0 <= j < |diasNuevos| && diasNuevos[j].diaSemana == w;
        assert diasNuevos[j] in fresh_;
        var k :| 0 <= k < |fresh_| && fresh_[k] == diasNuevos[j];
        assert created[k] in after;
      }
    }
  }

  /** The rows `crearRutinaCompleta` creates carry exactly the body's
      weekdays, all under the new routine. */
  lemma CreatedWeekdays(dias: seq<NewDay>, idRutina: int, first: int)
    ensures WeekdaysOfRoutine(CreatedDays(dias, idRutina, first), idRutina) == NewWeekdays(dias)
    ensures forall r :: r in CreatedDays(dias, idRutina, first) ==> r.idRutina == idRutina
  {
    var c := CreatedDays(dias, idRutina, first);
    CreatedDaysAt(dias, idRutina, first);
    forall w | w in NewWeekdays(dias) ensures w in WeekdaysOfRoutine(c, idRutina) {
      var j :| 0 <= j < |dias| && dias[j].diaSemana == w;
      assert c[j] in c;
    }
  }

  // ------------------------------------------ the exercise table afterwards

  /** A day's list written under `idDia`: appended to what the day already
      has, and nothing at all for an empty list. */
  function Put(t: ExerciseTable, idDia: int, es: seq<Exercise>): ExerciseTable {
    if |es| > 0 then t[idDia := ExercisesOf(t, idDia) + es] else t
  }

  /** The exercise table after `crearRutinaCompleta` has created `dias`
      with day ids from `first` on. */
  function AfterCreate(t: ExerciseTable, dias: seq<NewDay>, first: int): ExerciseTable {
    if dias == [] then t
    else Put(AfterCreate(t, dias[..|dias| - 1], first), first + |dias| - 1, dias[|dias| - 1].ejercicios)
  }

  /** The exercise table after the loop of `actualizarRutinaCompleta`: a day
      whose weekday maps to an existing id has that id's exercises deleted
      and its own written; any other day writes its own under the next new
      id. */
  function AfterUpdate(t: ExerciseTable, dias: seq<NewDay>, m: map<string, int>, first: int): ExerciseTable {
    if dias == [] then t
    else
      var init := dias[..|dias| - 1];
      var d := dias[|dias| - 1];
      var t0 := AfterUpdate(t, init, m, first);
      if Existing(m, d.diaSemana) then Put(t0 - {m[d.diaSemana]}, m[d.diaSemana], d.ejercicios)
      else Put(t0, first + |FreshDays(init, m)|, d.ejercicios)
  }

  /** Creating a routine gives each new day exactly its own list and leaves
      the exercises of every older day as they were. */
  lemma {:induction false} CreatedExercises(t: ExerciseTable, dias: seq<NewDay>, first: int)
    requires forall id :: id in t ==> id < first
    ensures forall j :: 0 <= j < |dias| ==> ExercisesOf(AfterCreate(t, dias, first), first + j) == dias[j].ejercicios
    ensures forall x :: x < first || x >= first + |dias| ==> ExercisesOf(AfterCreate(t, dias, first), x) == ExercisesOf(t, x)
  {
    if dias != [] {
      var init := dias[..|dias| - 1];
      CreatedExercises(t, init, first);
      assert forall j :: 0 <= j < |init| ==> init[j] == dias[j];
    }
  }

  lemma AfterUpdateStep(t: ExerciseTable, init: seq<NewDay>, d: NewDay, m: map<string, int>, first: int)
    ensures AfterUpdate(t, init + [d], m, first)
         == if Existing(m, d.diaSemana) then Put(AfterUpdate(t, init, m, first) - {m[d.diaSemana]}, m[d.diaSemana], d.ejercicios)
            else Put(AfterUpdate(t, init, m, first), first + |FreshDays(init, m)|, d.ejercicios)
    ensures FreshDays(init + [d], m) == if Existing(m, d.diaSemana) then FreshDays(init, m) else FreshDays(init, m) + [d]
  {
    assert (init + [d])[..|init|] == init;
  }

  /** After the update no day id at or past the new counter has exercises. */
  lemma {:induction false} UpdatedKeys(t: ExerciseTable, dias: seq<NewDay>, m: map<string, int>, first: int)
    requires forall id :: id in t ==> id < first
    requires forall w :: w in m ==> m[w] < first
    ensures forall id :: id in AfterUpdate(t, dias, m, first) ==> id < first + |FreshDays(dias, m)|
  {
    if dias != [] {
      var init := dias[..|dias| - 1];
      assert dias == init + [dias[|dias| - 1]];
      UpdatedKeys(t, init, m, first);
      AfterUpdateStep(t, init, dias[|dias| - 1], m, first);
    }
  }

  /** Every day row the update creates holds exactly its own list. */
  lemma {:induction false} UpdatedNewDay(t: ExerciseTable, dias: seq<NewDay>, m: map<string, int>, first: int, j: int)
    requires forall id :: id in t ==> id < first
    requires forall w :: w in m ==> m[w] < first
    requires 0 <= j < |FreshDays(dias, m)|
    ensures ExercisesOf(AfterUpdate(t, dias, m, first), first + j) == FreshDays(dias, m)[j].ejercicios
  {
    var init := dias[..|dias| - 1];
    var d := dias[|dias| - 1];
    assert dias == init + [d];
    AfterUpdateStep(t, init, d, m, first);
    if j < |FreshDays(init, m)| {
      UpdatedNewDay(t, init, m, first, j);
    } else {
      UpdatedKeys(t, init, m, first);
    }
  }

  /** A kept weekday's old id holds the list of the body's last day with that
      weekday (nothing, when that list is empty). */
  lemma {:induction false} UpdatedReusedDay(t: ExerciseTable, dias: seq<NewDay>, m: map<string, int>, first: int, w: string)
    requires forall w :: w in m ==> m[w] < first
    requires WeekdayIdsDistinct(m)
    requires Existing(m, w) && w in NewWeekdays(dias)
    ensures ExercisesOf(AfterUpdate(t, dias, m, first), m[w]) == LastExercises(dias, w)
  {
    var init := dias[..|dias| - 1];
    var d := dias[|dias| - 1];
    assert dias == init + [d];
    AfterUpdateStep(t, init, d, m, first);
    PrefixStep(init, d, m);
    if d.diaSemana != w {
      UpdatedReusedDay(t, init, m, first, w);
    }
  }

  /** An id that is neither a kept weekday's id nor a new one keeps its
      exercises. */
  lemma {:induction false} UpdatedUntouched(t: ExerciseTable, dias: seq<NewDay>, m: map<string, int>, first: int, x: int)
    requires forall w :: w in m ==> m[w] < first
    requires forall w :: Existing(m, w) && w in NewWeekdays(dias) ==> m[w] != x
    requires x < first || x >= first + |FreshDays(dias, m)|
    ensures ExercisesOf(AfterUpdate(t, dias, m, first), x) == ExercisesOf(t, x)
  {
    if dias != [] {
      var init := dias[..|dias| - 1];
      var d := dias[|dias| - 1];
      assert dias == init + [d];
      AfterUpdateStep(t, init, d, m, first);
      PrefixStep(init, d, m);
      UpdatedUntouched(t, init, m, first, x);
    }
  }

  lemma WithoutNoIds(rows: seq<DayRow>)
    ensures WithoutIds(rows, []) == rows
  {
    if rows != [] {
      WithoutNoIds(rows[..|rows| - 1]);
      assert rows == rows[..|rows| - 1] + [rows[|rows| - 1]];
    }
  }

  lemma DeleteKeepsUniqueIds(rows: seq<DayRow>, ids: seq<int>)
    requires UniqueDayIds(rows)
    ensures UniqueDayIds(WithoutIds(rows, ids))
  {
    if rows != [] {
      var init := rows[..|rows| - 1];
      var last := rows[|rows| - 1];
      DeleteKeepsUniqueIds(init, ids);
      var r0 := WithoutIds(init, ids);
      if last.id !in ids {
        assert forall k :: 0 <= k < |r0| ==> r0[k] in init && r0[k].id != last.id;
      }
    }
  }
}
