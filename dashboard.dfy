/** controllers/dashboard.controller.ts: `getDashboardData`, the same two
    streaks as the profile, from the same queries, but with looser guards and
    a looser test for today: `if (map.get(today))` (truthiness) where the
    prior days keep `=== true`. The response adds the target weight.

    Inputs as in module Perfil; the progress row brings both weights. */
module Dashboard {

  import opened JsValues
  import opened Records
  import opened Adherence
  import Dates
  import Perfil

  /** The columns read from `usuario`. */
  datatype UserRow = UserRow(nombreUsuario: Value, unidadPeso: Value)

  /** The columns read from the active `progreso_usuario` row. */
  datatype ProgressRow = ProgressRow(pesoActual: Value, pesoDeseado: Value)

  /** The response body. */
  datatype DashboardData = DashboardData(
    nombreUsuario: Value, rachaRutina: nat, rachaDieta: nat,
    pesoActual: Value, metaPeso: Value, unidadPeso: Value)

  function PesoActualOf(progreso: Option<ProgressRow>): Option<Value> {
    if progreso.Some? then Some(progreso.value.pesoActual) else None
  }

  function PesoDeseadoOf(progreso: Option<ProgressRow>): Option<Value> {
    if progreso.Some? then Some(progreso.value.pesoDeseado) else None
  }

  // ------------------------------------------------------------ the streaks

  /** The routine section reaches its walk: any routine (its `dias` array is
      always truthy), a truthy day id, and data from the query. */
  predicate RoutineStreakRuns(rutinaActiva: Option<Routine>, cumplimientos: Option<seq<RoutineCompliance>>) {
    rutinaActiva.Some? && TruthyDayIds(rutinaActiva.value.dias) != [] && cumplimientos.Some?
  }

  /** `rachaRutina` as the dashboard computes it. */
  function RachaRutina(rutinaActiva: Option<Routine>, cumplimientos: Option<seq<RoutineCompliance>>, today: int): nat {
    if RoutineStreakRuns(rutinaActiva, cumplimientos) then
      Streak(RoutineWeekdays(rutinaActiva.value.dias), Perfil.TruthyIdsLog(rutinaActiva.value, cumplimientos.value),
             today, IfTruthy, IfStrictTrue)
    else 0
  }

  /** The diet section reaches its walk: any diet, a slot with food, and
      data from the query. */
  predicate DietStreakRuns(dietaActiva: Option<Diet>, cumplimientos: Option<seq<DietDayCompliance>>) {
    dietaActiva.Some? && DietWeekdays(dietaActiva.value.dias) != {} && cumplimientos.Some?
  }

  /** `rachaDieta` as the dashboard computes it. */
  function RachaDieta(dietaActiva: Option<Diet>, cumplimientos: Option<seq<DietDayCompliance>>, today: int): nat {
    if DietStreakRuns(dietaActiva, cumplimientos) then
      Streak(DietWeekdays(dietaActiva.value.dias), Perfil.DietLog(dietaActiva.value, cumplimientos.value),
             today, IfTruthy, IfStrictTrue)
    else 0
  }

  /** The dashboard's routine streak: zero unless the section reaches its walk. */
  method RoutineStreakSection(rutinaActiva: Option<Routine>, cumplimientoRutina: Option<seq<RoutineCompliance>>, today: int)
    returns (rachaRutina: nat)
    ensures rachaRutina == RachaRutina(rutinaActiva, cumplimientoRutina, today)
    ensures rachaRutina <= LOOKBACK
  {
    rachaRutina := 0;
    if rutinaActiva.Some? {
      var diasConRutina := RoutineWeekdays(rutinaActiva.value.dias);
      var idsDiasConRutina := TruthyDayIds(rutinaActiva.value.dias);
      if |idsDiasConRutina| > 0 && cumplimientoRutina.Some? {
        var cumplimientosMap := BuildLog(RoutinePairs(SelectByDayIds(cumplimientoRutina.value, idsDiasConRutina)));
        rachaRutina := ComputeStreak(diasConRutina, cumplimientosMap, today, IfTruthy, IfStrictTrue);
        StreakBounds(diasConRutina, cumplimientosMap, today, IfTruthy, IfStrictTrue);
      }
    }
  }

  /** The dashboard's diet streak: zero unless the section reaches its walk. */
  method DietStreakSection(dietaActiva: Option<Diet>, cumplimientoDietaDia: Option<seq<DietDayCompliance>>, today: int)
    returns (rachaDieta: nat)
    ensures rachaDieta == RachaDieta(dietaActiva, cumplimientoDietaDia, today)
    ensures rachaDieta <= LOOKBACK
  {
    rachaDieta := 0;
    if dietaActiva.Some? {
      var diasConDieta := CollectDietWeekdays(dietaActiva.value.dias);
      assert |diasConDieta| > 0 <==> diasConDieta != {};
      if |diasConDieta| > 0 && cumplimientoDietaDia.Some? {
        var cumplimientosMap := BuildLog(DietPairs(SelectByDiet(cumplimientoDietaDia.value, dietaActiva.value.id)));
        rachaDieta := ComputeStreak(diasConDieta, cumplimientosMap, today, IfTruthy, IfStrictTrue);
        StreakBounds(diasConDieta, cumplimientosMap, today, IfTruthy, IfStrictTrue);
      }
    }
  }

  // ---------------------------------------------------------- the handler

  /** `getDashboardData`: 500 when the user row is missing, otherwise the
      two streaks and the defaulted columns. */
  method GetDashboardData(
    usuario: Option<UserRow>, progreso: Option<ProgressRow>,
    rutinaActiva: Option<Routine>, dietaActiva: Option<Diet>,
    cumplimientoRutina: Option<seq<RoutineCompliance>>, cumplimientoDietaDia: Option<seq<DietDayCompliance>>,
    today: int)
    returns (r: Result<DashboardData>)
    ensures r.Err? <==> usuario.None?
    ensures r.Err? ==> r.status == Perfil.SERVER_ERROR
    ensures r.Ok? ==>
      r.value.nombreUsuario == usuario.value.nombreUsuario
      && r.value.pesoActual == OrNull(PesoActualOf(progreso))
      && r.value.metaPeso == OrNull(PesoDeseadoOf(progreso))
      && r.value.unidadPeso == UnidadPeso(usuario.value.unidadPeso)
    ensures r.Ok? ==> r.value.rachaRutina == RachaRutina(rutinaActiva, cumplimientoRutina, today)
    ensures r.Ok? ==> r.value.rachaDieta == RachaDieta(dietaActiva, cumplimientoDietaDia, today)
    ensures r.Ok? ==> r.value.rachaRutina <= LOOKBACK && r.value.rachaDieta <= LOOKBACK
  {
    if usuario.None? {
      return Err(Perfil.SERVER_ERROR);
    }

    var rachaRutina := RoutineStreakSection(rutinaActiva, cumplimientoRutina, today);
    var rachaDieta := DietStreakSection(dietaActiva, cumplimientoDietaDia, today);

    r := Ok(DashboardData(usuario.value.nombreUsuario, rachaRutina, rachaDieta,
                          OrNull(PesoActualOf(progreso)), OrNull(PesoDeseadoOf(progreso)),
                          UnidadPeso(usuario.value.unidadPeso)));
  }

  // ----------------------------------------------------------- properties

  /** Compliance rows whose `cumplido` is a boolean or NULL. */
  predicate BooleanRoutineRows(table: seq<RoutineCompliance>) {
    forall c :: c in table ==> IsBooleanOrNull(c.cumplido)
  }

  predicate BooleanDietRows(table: seq<DietDayCompliance>) {
    forall c :: c in table ==> IsBooleanOrNull(c.cumplido)
  }

  /** On a boolean column the dashboard and the profile show the same
      routine streak: the extra `dias.length > 0` guard of the profile never
      decides (no days means no truthy id), and the two tests for today
      agree on booleans. */
  lemma RoutineStreakMatchesProfile(rutinaActiva: Option<Routine>, cumplimientos: Option<seq<RoutineCompliance>>, today: int)
    requires cumplimientos.Some? ==> BooleanRoutineRows(cumplimientos.value)
    ensures RachaRutina(rutinaActiva, cumplimientos, today) == Perfil.RachaRutina(rutinaActiva, cumplimientos, today)
  {
    if RoutineStreakRuns(rutinaActiva, cumplimientos) {
      var rows := SelectByDayIds(cumplimientos.value, TruthyDayIds(rutinaActiva.value.dias));
      var pairs := RoutinePairs(rows);
      forall i | 0 <= i < |pairs| ensures IsBooleanOrNull(pairs[i].1) {
        assert rows[i] in rows;
      }
      BooleanPairsBooleanLog(pairs);
      VariantsAgreeOnBooleanLog(RoutineWeekdays(rutinaActiva.value.dias), BuildLog(pairs), today,
                                IfTruthy, IfStrictTrue, IfStrictTrue, IfStrictTrue);
    }
  }

  /** The same for the diet streak. */
  lemma DietStreakMatchesProfile(dietaActiva: Option<Diet>, cumplimientos: Option<seq<DietDayCompliance>>, today: int)
    requires cumplimientos.Some? ==> BooleanDietRows(cumplimientos.value)
    ensures RachaDieta(dietaActiva, cumplimientos, today) == Perfil.RachaDieta(dietaActiva, cumplimientos, today)
  {
    if DietStreakRuns(dietaActiva, cumplimientos) {
      var rows := SelectByDiet(cumplimientos.value, dietaActiva.value.id);
      var pairs := DietPairs(rows);
      forall i | 0 <= i < |pairs| ensures IsBooleanOrNull(pairs[i].1) {
        assert rows[i] in rows;
      }
      BooleanPairsBooleanLog(pairs);
      VariantsAgreeOnBooleanLog(DietWeekdays(dietaActiva.value.dias), BuildLog(pairs), today,
                                IfTruthy, IfStrictTrue, IfStrictTrue, IfStrictTrue);
    } else if dietaActiva.Some? && DietWeekdays(dietaActiva.value.dias) != {} {
      assert dietaActiva.value.dias != [];
    }
  }

  /** Off a boolean column the two can differ: a numeric 1 stored for today
      earns the dashboard a point the profile does not give. */
  lemma TodayTestsDiffer(today: int)
    ensures var rutina := Routine(1, [RoutineDay(1, Dates.NameOfDay(today), [])]);
      var table := [RoutineCompliance(1, 1, today, Num(1))];
      RachaRutina(Some(rutina), Some(table), today) == 1
      && Perfil.RachaRutina(Some(rutina), Some(table), today) == 0
  {
    var rutina := Routine(1, [RoutineDay(1, Dates.NameOfDay(today), [])]);
    var table := [RoutineCompliance(1, 1, today, Num(1))];
    var active := RoutineWeekdays(rutina.dias);
    assert TruthyDayIds(rutina.dias) == [1];
    var log := Perfil.TruthyIdsLog(rutina, table);
    assert SelectByDayIds(table, [1]) == table by {
      assert table[..0] == [];
    }
    assert RoutinePairs(table) == [(today, Num(1))];
    assert log == map[today := Num(1)];
    PriorRunMonotone(active, log, map[], today, IfStrictTrue, 1);
    EmptyLogWalk(active, today, IfStrictTrue, 1);
  }
}
