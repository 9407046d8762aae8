/** The rows the controllers read from the database, as values: a plan
    (routine or diet) with its weekday slots, and the three compliance tables.
    Also the schedule resolver, which reduces a plan to the set of weekday
    names on which it has something scheduled, and the queries that turn
    compliance rows into the `[fecha, cumplido]` pairs a log is built from.

    Dates are day numbers (see module Dates); ids are integers, with 0
    standing for a missing id, which JavaScript treats as falsy. */
module Records {

  import opened JsValues

  /** The four fields of a `rutina_dia_semana_ejercicio` row that the
      controllers copy from a request (`id_ejercicio`, `series`,
      `repeticiones`, `peso_ejercicio`). */
  datatype Exercise = Exercise(idEjercicio: int, series: int, repeticiones: int, peso: int)

  /** A `rutina_dia_semana` row with its nested exercises. */
  datatype RoutineDay = RoutineDay(id: int, diaSemana: string, ejercicios: seq<Exercise>)

  /** A `rutina` row with its days (`dias:rutina_dia_semana(*)`). */
  datatype Routine = Routine(id: int, dias: seq<RoutineDay>)

  /** A `dieta_alimento` row (a meal slot) with the ids of its nested
      `dieta_alimento_detalle` rows (`alimentos`). */
  datatype MealSlot = MealSlot(id: int, diaSemana: string, alimentos: seq<int>)

  /** A `dieta` row with its meal slots (`dias:dieta_alimento(...)`). */
  datatype Diet = Diet(id: int, dias: seq<MealSlot>)

  /** A `cumplimiento_rutina` row. */
  datatype RoutineCompliance = RoutineCompliance(id: int, idDia: int, fecha: int, cumplido: Value)

  /** A `cumplimiento_dieta_dia` row: whole-day compliance with a diet. */
  datatype DietDayCompliance =
    DietDayCompliance(id: int, idUsuario: int, idDieta: int, fecha: int, diaSemana: string, cumplido: Value)

  /** A `cumplimiento_dieta` row: compliance with one meal slot. */
  datatype MealCompliance = MealCompliance(id: int, idUsuario: int, idComida: int, fecha: int, cumplido: Value)

  /** An id as JavaScript tests it (`.filter(Boolean)`, `if (id)`). */
  predicate IdTruthy(id: int) {
    id != 0
  }

  /** The weight unit a profile falls back to. */
  const DEFAULT_UNIT: Value := Text("kg")

  /** `usuario.unidad_peso || "kg"`: the stored unit when set, "kg" when it
      is NULL or empty. */
  function UnidadPeso(u: Value): (r: Value)
    ensures Truthy(r)
    ensures Truthy(u) ==> r == u
    ensures !Truthy(u) ==> r == DEFAULT_UNIT
  {
    OrDefault(u, DEFAULT_UNIT)
  }

  // ------------------------------------------------------- schedule resolver

  /** `new Set(dias.map(d => d.dia_semana))`: every day of the routine makes
      its weekday active, whatever its exercises. */
  function RoutineWeekdays(dias: seq<RoutineDay>): (s: set<string>)
    ensures forall n :: n in s <==> exists k :: 0 <= k < |dias| && dias[k].diaSemana == n
    ensures s == {} <==> dias == []
  {
    var s := set k | 0 <= k < |dias| :: dias[k].diaSemana;
    assert dias != [] ==> dias[0].diaSemana in s;
    s
  }

  /** `dias.map(d => d.id_rutina_dia_semana)`. */
  function DayIds(dias: seq<RoutineDay>): (ids: seq<int>)
    ensures |ids| == |dias|
    ensures forall k :: 0 <= k < |dias| ==> ids[k] == dias[k].id
  {
    if dias == [] then [] else DayIds(dias[..|dias| - 1]) + [dias[|dias| - 1].id]
  }

  /** `dias.map(d => d.id_rutina_dia_semana).filter(Boolean)`: the ids that
      are present. */
  function TruthyDayIds(dias: seq<RoutineDay>): (ids: seq<int>)
    ensures |ids| <= |dias|
    ensures forall x :: x in ids <==> IdTruthy(x) && exists k :: 0 <= k < |dias| && dias[k].id == x
    ensures ids == [] <==> forall k :: 0 <= k < |dias| ==> !IdTruthy(dias[k].id)
  {
    if dias == [] then []
    else
      var rest := TruthyDayIds(dias[..|dias| - 1]);
      var last := dias[|dias| - 1];
      assert forall k :: 0 <= k < |dias| - 1 ==> dias[..|dias| - 1][k] == dias[k];
      if IdTruthy(last.id) then rest + [last.id] else rest
  }

  /** The diet's active weekdays: those of the meal slots that hold at least
      one food; a slot with an empty `alimentos` list activates nothing. */
  function DietWeekdays(dias: seq<MealSlot>): (s: set<string>)
    ensures forall n :: n in s <==> exists k :: 0 <= k < |dias| && |dias[k].alimentos| > 0 && dias[k].diaSemana == n
  {
    set k | 0 <= k < |dias| && |dias[k].alimentos| > 0 :: dias[k].diaSemana
  }

  /** The `forEach` that fills `diasConDieta`, slot by slot. */
  method CollectDietWeekdays(dias: seq<MealSlot>) returns (diasConDieta: set<string>)
    ensures diasConDieta == DietWeekdays(dias)
    ensures forall n :: n in diasConDieta <==>
      exists k :: 0 <= k < |dias| && |dias[k].alimentos| > 0 && dias[k].diaSemana == n
  {
    diasConDieta := {};
    for i := 0 to |dias|
      invariant forall n :: n in diasConDieta <==>
        exists k :: 0 <= k < i && |dias[k].alimentos| > 0 && dias[k].diaSemana == n
    {
      if |dias[i].alimentos| > 0 {
        diasConDieta := diasConDieta + {dias[i].diaSemana};
      }
    }
  }

  /** Slots without food never make a weekday active: dropping them leaves the
      diet's active weekdays as they were. */
  lemma {:induction false} EmptySlotsDoNotActivate(dias: seq<MealSlot>, slot: MealSlot)
    requires |slot.alimentos| == 0
    ensures DietWeekdays(dias + [slot]) == DietWeekdays(dias)
    ensures DietWeekdays([slot] + dias) == DietWeekdays(dias)
  {
    var a, b := dias + [slot], [slot] + dias;
    forall n ensures n in DietWeekdays(a) <==> n in DietWeekdays(dias) {
      if n in DietWeekdays(a) {
        var k :| 0 <= k < |a| && |a[k].alimentos| > 0 && a[k].diaSemana == n;
        assert k < |dias| && dias[k] == a[k];
      }
      if n in DietWeekdays(dias) {
        var k :| 0 <= k < |dias| && |dias[k].alimentos| > 0 && dias[k].diaSemana == n;
        assert a[k] == dias[k];
      }
    }
    forall n ensures n in DietWeekdays(b) <==> n in DietWeekdays(dias) {
      if n in DietWeekdays(b) {
        var k :| 0 <= k < |b| && |b[k].alimentos| > 0 && b[k].diaSemana == n;
        assert k > 0 && dias[k - 1] == b[k];
      }
      if n in DietWeekdays(dias) {
        var k :| 0 <= k < |dias| && |dias[k].alimentos| > 0 && dias[k].diaSemana == n;
        assert b[k + 1] == dias[k];
      }
    }
  }

  // ----------------------------------------------------------------- queries

  /** `cumplimiento_rutina ... .in("id_rutina_dia_semana", ids)`: the rows of
      the given days, in table order. */
  function SelectByDayIds(table: seq<RoutineCompliance>, ids: seq<int>): (rows: seq<RoutineCompliance>)
    ensures |rows| <= |table|
    ensures forall r :: r in rows <==> r in table && r.idDia in ids
  {
    if table == [] then []
    else
      var rest := SelectByDayIds(table[..|table| - 1], ids);
      var last := table[|table| - 1];
      assert table == table[..|table| - 1] + [last];
      if last.idDia in ids then rest + [last] else rest
  }

  /** The query depends on the id list only through its members. */
  lemma {:induction false} SelectByDayIdsMembersOnly(table: seq<RoutineCompliance>, a: seq<int>, b: seq<int>)
    requires forall x :: x in a <==> x in b
    ensures SelectByDayIds(table, a) == SelectByDayIds(table, b)
  {
    if table != [] {
      SelectByDayIdsMembersOnly(table[..|table| - 1], a, b);
    }
  }

  /** When every day id is truthy, filtering them keeps them all. */
  lemma AllIdsTruthy(dias: seq<RoutineDay>)
    requires forall k :: 0 <= k < |dias| ==> IdTruthy(dias[k].id)
    ensures forall x :: x in DayIds(dias) <==> x in TruthyDayIds(dias)
  {
    forall x | x in DayIds(dias) ensures x in TruthyDayIds(dias) {
      var k :| 0 <= k < |dias| && DayIds(dias)[k] == x;
    }
  }

  /** `cumplimiento_dieta_dia ... .eq("id_dieta", idDieta)`, in table order. */
  function SelectByDiet(table: seq<DietDayCompliance>, idDieta: int): (rows: seq<DietDayCompliance>)
    ensures |rows| <= |table|
    ensures forall r :: r in rows <==> r in table && r.idDieta == idDieta
  {
    if table == [] then []
    else
      var rest := SelectByDiet(table[..|table| - 1], idDieta);
      var last := table[|table| - 1];
      assert table == table[..|table| - 1] + [last];
      if last.idDieta == idDieta then rest + [last] else rest
  }

  /** `rows.map(c => [c.fecha_a_cumplir, c.cumplido])`. */
  function RoutinePairs(rows: seq<RoutineCompliance>): (ps: seq<(int, Value)>)
    ensures |ps| == |rows|
    ensures forall k :: 0 <= k < |rows| ==> ps[k] == (rows[k].fecha, rows[k].cumplido)
  {
    if rows == [] then [] else RoutinePairs(rows[..|rows| - 1]) + [(rows[|rows| - 1].fecha, rows[|rows| - 1].cumplido)]
  }

  /** `rows.map(c => [c.fecha_a_cumplir, c.cumplido])` on whole-day diet rows. */
  function DietPairs(rows: seq<DietDayCompliance>): (ps: seq<(int, Value)>)
    ensures |ps| == |rows|
    ensures forall k :: 0 <= k < |rows| ==> ps[k] == (rows[k].fecha, rows[k].cumplido)
  {
    if rows == [] then [] else DietPairs(rows[..|rows| - 1]) + [(rows[|rows| - 1].fecha, rows[|rows| - 1].cumplido)]
  }
}
