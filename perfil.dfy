/** controllers/perfil.controller.ts: `getProfileData`, the user's basic data
    with the routine and diet streaks, both walked with the strict test
    `=== true` for today and for the prior days.

    The four reads are inputs: the user row (`None` when `.single()` fails),
    the `peso_actual` of the active progress row (`None` when there is no
    such row), the active routine and the diet. The two compliance queries
    are inputs as whole tables, `None` when the query returns no data. */
module Perfil {

  import opened JsValues
  import opened Records
  import opened Adherence
  import Rutina

  /** The columns read from `usuario`. */
  datatype UserRow = UserRow(nombreUsuario: Value, correoUsuario: Value, unidadPeso: Value)

  /** The response body. */
  datatype ProfileData = ProfileData(
    nombreUsuario: Value, correoUsuario: Value, unidadPeso: Value, pesoActual: Value,
    rachaRutina: nat, rachaDieta: nat)

  /** The HTTP status of the catch block. */
  const SERVER_ERROR: int := 500

  // ---------------------------------------------------------- the routine

  /** The routine section reaches its walk: a routine with days, at least
      one truthy day id, and data from the compliance query. */
  predicate RoutineStreakRuns(rutinaActiva: Option<Routine>, cumplimientos: Option<seq<RoutineCompliance>>) {
    rutinaActiva.Some? && |rutinaActiva.value.dias| > 0
    && TruthyDayIds(rutinaActiva.value.dias) != [] && cumplimientos.Some?
  }

  /** The routine's log: the rows of its truthy day ids, keyed by date. The
      dashboard issues the same query. */
  function TruthyIdsLog(rutina: Routine, table: seq<RoutineCompliance>): Log {
    BuildLog(RoutinePairs(SelectByDayIds(table, TruthyDayIds(rutina.dias))))
  }

  /** `rachaRutina` as the profile computes it. */
  function RachaRutina(rutinaActiva: Option<Routine>, cumplimientos: Option<seq<RoutineCompliance>>, today: int): nat {
    if RoutineStreakRuns(rutinaActiva, cumplimientos) then
      Streak(RoutineWeekdays(rutinaActiva.value.dias), TruthyIdsLog(rutinaActiva.value, cumplimientos.value),
             today, IfStrictTrue, IfStrictTrue)
    else 0
  }

  // ------------------------------------------------------------- the diet

  /** The diet section reaches its walk: a diet with slots, one of them
      holding food, and data from the compliance query. */
  predicate DietStreakRuns(dietaActiva: Option<Diet>, cumplimientos: Option<seq<DietDayCompliance>>) {
    dietaActiva.Some? && |dietaActiva.value.dias| > 0
    && DietWeekdays(dietaActiva.value.dias) != {} && cumplimientos.Some?
  }

  /** The diet's log: its whole-day rows, keyed by date. The dashboard
      issues the same query. */
  function DietLog(dieta: Diet, table: seq<DietDayCompliance>): Log {
    BuildLog(DietPairs(SelectByDiet(table, dieta.id)))
  }

  /** `rachaDieta` as the profile computes it. */
  function RachaDieta(dietaActiva: Option<Diet>, cumplimientos: Option<seq<DietDayCompliance>>, today: int): nat {
    if DietStreakRuns(dietaActiva, cumplimientos) then
      Streak(DietWeekdays(dietaActiva.value.dias), DietLog(dietaActiva.value, cumplimientos.value),
             today, IfStrictTrue, IfStrictTrue)
    else 0
  }

  /** The profile's routine streak: zero unless the section reaches its walk. */
  method RoutineStreakSection(rutinaActiva: Option<Routine>, cumplimientoRutina: Option<seq<RoutineCompliance>>, today: int)
    returns (rachaRutina: nat)
    ensures rachaRutina == RachaRutina(rutinaActiva, cumplimientoRutina, today)
    ensures rachaRutina <= LOOKBACK
  {
    rachaRutina := 0;
    var diasDeRutina := if rutinaActiva.Some? then rutinaActiva.value.dias else [];
    if rutinaActiva.Some? && |diasDeRutina| > 0 {
      var diasConRutina := RoutineWeekdays(rutinaActiva.value.dias);
      var idsDiasConRutina := TruthyDayIds(rutinaActiva.value.dias);
      if |idsDiasConRutina| > 0 && cumplimientoRutina.Some? {
        var cumplimientosMap := BuildLog(RoutinePairs(SelectByDayIds(cumplimientoRutina.value, idsDiasConRutina)));
        rachaRutina := ComputeStreak(diasConRutina, cumplimientosMap, today, IfStrictTrue, IfStrictTrue);
        StreakBounds(diasConRutina, cumplimientosMap, today, IfStrictTrue, IfStrictTrue);
      }
    }
  }

  /** The profile's diet streak: zero unless the section reaches its walk. */
  method DietStreakSection(dietaActiva: Option<Diet>, cumplimientoDietaDia: Option<seq<DietDayCompliance>>, today: int)
    returns (rachaDieta: nat)
    ensures rachaDieta == RachaDieta(dietaActiva, cumplimientoDietaDia, today)
    ensures rachaDieta <= LOOKBACK
  {
    rachaDieta := 0;
    var diasDeDieta := if dietaActiva.Some? then dietaActiva.value.dias else [];
    if dietaActiva.Some? && |diasDeDieta| > 0 {
      var diasConDieta := CollectDietWeekdays(dietaActiva.value.dias);
      assert |diasConDieta| > 0 <==> diasConDieta != {};
      if |diasConDieta| > 0 && cumplimientoDietaDia.Some? {
        var cumplimientosMap := BuildLog(DietPairs(SelectByDiet(cumplimientoDietaDia.value, dietaActiva.value.id)));
        rachaDieta := ComputeStreak(diasConDieta, cumplimientosMap, today, IfStrictTrue, IfStrictTrue);
        StreakBounds(diasConDieta, cumplimientosMap, today, IfStrictTrue, IfStrictTrue);
      }
    }
  }

  // ---------------------------------------------------------- the handler

  /** `getProfileData`: 500 when the user row is missing, otherwise the
      user's columns with their defaults and the two streaks. */
  method GetProfileData(
    usuario: Option<UserRow>, pesoActual: Option<Value>,
    rutinaActiva: Option<Routine>, dietaActiva: Option<Diet>,
    cumplimientoRutina: Option<seq<RoutineCompliance>>, cumplimientoDietaDia: Option<seq<DietDayCompliance>>,
    today: int)
    returns (r: Result<ProfileData>)
    ensures r.Err? <==> usuario.None?
    ensures r.Err? ==> r.status == SERVER_ERROR
    ensures r.Ok? ==>
      r.value.nombreUsuario == usuario.value.nombreUsuario
      && r.value.correoUsuario == usuario.value.correoUsuario
      && r.value.unidadPeso == UnidadPeso(usuario.value.unidadPeso)
      && r.value.pesoActual == OrNull(pesoActual)
    ensures r.Ok? ==> r.value.rachaRutina == RachaRutina(rutinaActiva, cumplimientoRutina, today)
    ensures r.Ok? ==> r.value.rachaDieta == RachaDieta(dietaActiva, cumplimientoDietaDia, today)
    ensures r.Ok? ==> r.value.rachaRutina <= LOOKBACK && r.value.rachaDieta <= LOOKBACK
  {
    if usuario.None? {
      return Err(SERVER_ERROR);
    }

    var rachaRutina := RoutineStreakSection(rutinaActiva, cumplimientoRutina, today);
    var rachaDieta := DietStreakSection(dietaActiva, cumplimientoDietaDia, today);

    r := Ok(ProfileData(usuario.value.nombreUsuario, usuario.value.correoUsuario,
                        UnidadPeso(usuario.value.unidadPeso), OrNull(pesoActual), rachaRutina, rachaDieta));
  }

  // ----------------------------------------------------------- properties

  /** A day the strict test passes in a log of routine rows comes from a row
      of that date storing `true`. */
  lemma StrictDayFromRoutineRow(rows: seq<RoutineCompliance>, d: int) returns (k: int)
    requires Done(BuildLog(RoutinePairs(rows)), IfStrictTrue, d)
    ensures 0 <= k < |rows| && rows[k].fecha == d && rows[k].cumplido == Bool(true)
  {
    var pairs := RoutinePairs(rows);
    LogEntriesArePairs(pairs);
    assert (d, Bool(true)) in pairs;
    k :| 0 <= k < |pairs| && pairs[k] == (d, Bool(true));
  }

  /** The same for a log of whole-day diet rows. */
  lemma StrictDayFromDietRow(rows: seq<DietDayCompliance>, d: int) returns (k: int)
    requires Done(BuildLog(DietPairs(rows)), IfStrictTrue, d)
    ensures 0 <= k < |rows| && rows[k].fecha == d && rows[k].cumplido == Bool(true)
  {
    var pairs := DietPairs(rows);
    LogEntriesArePairs(pairs);
    assert (d, Bool(true)) in pairs;
    k :| 0 <= k < |pairs| && pairs[k] == (d, Bool(true));
  }

  /** A routine streak is earned by a stored `true` of one of the routine's
      own days, dated inside the window. */
  lemma RachaRutinaNeedsRecord(rutinaActiva: Option<Routine>, cumplimientos: Option<seq<RoutineCompliance>>, today: int)
    requires RachaRutina(rutinaActiva, cumplimientos, today) > 0
    ensures rutinaActiva.Some? && cumplimientos.Some?
    ensures exists c :: (c in cumplimientos.value && c.idDia in TruthyDayIds(rutinaActiva.value.dias)
                         && c.cumplido == Bool(true) && today - LOOKBACK < c.fecha <= today)
  {
    var rows := SelectByDayIds(cumplimientos.value, TruthyDayIds(rutinaActiva.value.dias));
    var log := BuildLog(RoutinePairs(rows));
    StreakNeedsCompletion(RoutineWeekdays(rutinaActiva.value.dias), log, today, IfStrictTrue, IfStrictTrue);
    var d :| today - LOOKBACK < d <= today && Done(log, IfStrictTrue, d);
    var k := StrictDayFromRoutineRow(rows, d);
    assert rows[k] in rows;
  }

  /** A diet streak is earned by a stored `true` whole-day record of this
      diet, dated inside the window. */
  lemma RachaDietaNeedsRecord(dietaActiva: Option<Diet>, cumplimientos: Option<seq<DietDayCompliance>>, today: int)
    requires RachaDieta(dietaActiva, cumplimientos, today) > 0
    ensures dietaActiva.Some? && cumplimientos.Some?
    ensures exists c :: (c in cumplimientos.value && c.idDieta == dietaActiva.value.id
                         && c.cumplido == Bool(true) && today - LOOKBACK < c.fecha <= today)
  {
    var rows := SelectByDiet(cumplimientos.value, dietaActiva.value.id);
    var log := BuildLog(DietPairs(rows));
    StreakNeedsCompletion(DietWeekdays(dietaActiva.value.dias), log, today, IfStrictTrue, IfStrictTrue);
    var d :| today - LOOKBACK < d <= today && Done(log, IfStrictTrue, d);
    var k := StrictDayFromDietRow(rows, d);
    assert rows[k] in rows;
  }

  /** A record of a day that is not one of the routine's truthy day ids
      changes nothing. */
  lemma ForeignRoutineRecordIgnored(rutina: Routine, table: seq<RoutineCompliance>, c: RoutineCompliance, today: int)
    requires c.idDia !in TruthyDayIds(rutina.dias)
    ensures RachaRutina(Some(rutina), Some(table + [c]), today) == RachaRutina(Some(rutina), Some(table), today)
  {
    assert (table + [c])[..|table + [c]| - 1] == table;
  }

  /** A whole-day record of another diet changes nothing. */
  lemma ForeignDietRecordIgnored(dieta: Diet, table: seq<DietDayCompliance>, c: DietDayCompliance, today: int)
    requires c.idDieta != dieta.id
    ensures RachaDieta(Some(dieta), Some(table + [c]), today) == RachaDieta(Some(dieta), Some(table), today)
  {
    assert (table + [c])[..|table + [c]| - 1] == table;
  }

  /** The diet streak looks only at weekdays of slots with food: a slot
      without food, added anywhere, changes nothing unless it is the only
      slot. */
  lemma EmptySlotIgnored(dieta: Diet, slot: MealSlot, cumplimientos: Option<seq<DietDayCompliance>>, today: int)
    requires |slot.alimentos| == 0 && |dieta.dias| > 0
    ensures RachaDieta(Some(Diet(dieta.id, dieta.dias + [slot])), cumplimientos, today)
         == RachaDieta(Some(dieta), cumplimientos, today)
  {
    EmptySlotsDoNotActivate(dieta.dias, slot);
  }

  /** A routine whose day ids are all missing has no streak, whatever its
      records say. */
  lemma NoTruthyIdsNoStreak(rutina: Routine, cumplimientos: Option<seq<RoutineCompliance>>, today: int)
    requires forall k :: 0 <= k < |rutina.dias| ==> !IdTruthy(rutina.dias[k].id)
    ensures RachaRutina(Some(rutina), cumplimientos, today) == 0
  {
  }

  /** When every day id is truthy and the column is boolean, the profile
      shows the streak of the routine page (`getRutinasCompletasUsuario`),
      though that page queries every id and tests by truthiness. */
  lemma RachaRutinaMatchesRoutinePage(rutina: Routine, table: seq<RoutineCompliance>, today: int)
    requires |rutina.dias| > 0
    requires forall k :: 0 <= k < |rutina.dias| ==> IdTruthy(rutina.dias[k].id)
    requires forall c :: c in table ==> IsBooleanOrNull(c.cumplido)
    ensures RachaRutina(Some(rutina), Some(table), today)
         == Streak(RoutineWeekdays(rutina.dias), Rutina.RoutineLog(rutina, table), today, IfTruthy, IfTruthy)
  {
    AllIdsTruthy(rutina.dias);
    assert rutina.dias[0].id in TruthyDayIds(rutina.dias);
    SelectByDayIdsMembersOnly(table, DayIds(rutina.dias), TruthyDayIds(rutina.dias));
    var rows := SelectByDayIds(table, DayIds(rutina.dias));
    var pairs := RoutinePairs(rows);
    forall i | 0 <= i < |pairs| ensures IsBooleanOrNull(pairs[i].1) {
      assert rows[i] in rows;
    }
    BooleanPairsBooleanLog(pairs);
    VariantsAgreeOnBooleanLog(RoutineWeekdays(rutina.dias), BuildLog(pairs), today,
                              IfStrictTrue, IfStrictTrue, IfTruthy, IfTruthy);
  }
}
