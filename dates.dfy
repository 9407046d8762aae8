/** Calendar arithmetic behind the date keys (`YYYY-MM-DD`) and weekday names
    that index the compliance logs.  A date is a day number: day 0 is
    1970-01-01, a Thursday.  The conversion to a civil date is the proleptic
    Gregorian calendar that JavaScript's `getUTCFullYear`, `getUTCMonth` and
    `getUTCDate` implement, written with eras of 400 years (146097 days) that
    start on a first of March. */
module Dates {

  import opened JsValues

  const MS_PER_HOUR: int := 3600000
  const MS_PER_DAY: int := 86400000

  /** `getFechaLocal`'s default offset: Guatemala, six hours behind UTC. */
  const DEFAULT_OFFSET_HOURS: int := -6

  /** `diasSemanaMapa`, indexed by JavaScript's day of the week. */
  const WEEKDAY_NAMES: seq<string> :=
    ["Domingo", "Lunes", "Martes", "Miércoles", "Jueves", "Viernes", "Sábado"]

  // ---------------------------------------------------------------- weekdays

  /** JavaScript's `WeekDay(t)`: 0 is Sunday, and day 0 was a Thursday. */
  function Weekday(day: int): (w: int)
    ensures 0 <= w < 7
  {
    (day + 4) % 7
  }

  function WeekdayName(w: int): string
    requires 0 <= w < 7
  {
    WEEKDAY_NAMES[w]
  }

  /** The name of a day's weekday, `diasSemanaMapa[date.getDay()]`. */
  function NameOfDay(day: int): string {
    WeekdayName(Weekday(day))
  }

  /** The seven names are pairwise distinct, so a name identifies a weekday. */
  lemma WeekdayNameInjective(a: int, b: int)
    requires 0 <= a < 7 && 0 <= b < 7
    ensures WeekdayName(a) == WeekdayName(b) <==> a == b
  {
    var n := WEEKDAY_NAMES;
    assert n[0][0] == 'D' && n[1][0] == 'L' && n[2][0] == 'M' && n[3][0] == 'M';
    assert n[4][0] == 'J' && n[5][0] == 'V' && n[6][0] == 'S';
    assert n[2][1] == 'a' && n[3][1] == 'i';
    if a != b {
      assert n[a][0] != n[b][0] || n[a][1] != n[b][1];
    }
  }

  /** Consecutive days carry successive weekdays, modulo 7. */
  lemma WeekdayOfNextDay(day: int)
    ensures Weekday(day + 1) == (Weekday(day) + 1) % 7
  {
  }

  /** Two days have the same weekday name exactly when they are a whole number
      of weeks apart. */
  lemma SameNameIffWeeksApart(d1: int, d2: int)
    ensures NameOfDay(d1) == NameOfDay(d2) <==> (d1 - d2) % 7 == 0
  {
    WeekdayNameInjective(Weekday(d1), Weekday(d2));
    assert (d1 + 4) == 7 * ((d1 + 4) / 7) + Weekday(d1);
    assert (d2 + 4) == 7 * ((d2 + 4) / 7) + Weekday(d2);
    var q := (d1 + 4) / 7 - (d2 + 4) / 7;
    assert d1 - d2 == 7 * q + (Weekday(d1) - Weekday(d2));
    if Weekday(d1) == Weekday(d2) {
      assert (d1 - d2) % 7 == 0;
    } else {
      var r := Weekday(d1) - Weekday(d2);
      assert -7 < r < 7 && r != 0;
      if r > 0 {
        assert (d1 - d2) % 7 == r;
      } else {
        assert d1 - d2 == 7 * (q - 1) + (r + 7);
        assert (d1 - d2) % 7 == r + 7;
      }
    }
  }

  // ----------------------------------------------------------- civil dates

  datatype Civil = Civil(year: int, month: int, day: int)

  /** Years of an era elapsed after `doe` days of it. */
  function YearOfEra(doe: int): int {
    (doe - doe / 1460 + doe / 36524 - doe / 146096) / 365
  }

  /** Days of an era that precede its year `yoe` (each year running from March). */
  function DaysBeforeYearOfEra(yoe: int): int {
    365 * yoe + yoe / 4 - yoe / 100
  }

  lemma CenturyAndCycleSplit(doe: int, b: int, r: int, u: int, v: int, e: int)
    requires 0 <= doe < 146096 && b == doe / 36524 && r == doe - 36524 * b
    requires u == r / 1461 && v == r - 1461 * u && e == (24 * b + u + v) / 1460
    ensures 0 <= b <= 3 && 0 <= u <= 24 && 0 <= v <= 1460 && 0 <= e <= 1
    ensures doe / 1460 == 25 * b + u + e
  {
    assert doe == 1460 * (25 * b + u) + (24 * b + u + v);
  }

  lemma YearWithinCycle(b: int, u: int, v: int, e: int, w: int)
    requires 0 <= b <= 3 && 0 <= u <= 24 && 0 <= v <= 1460 && 0 <= e <= 1
    requires e == (24 * b + u + v) / 1460 && w == (v - e) / 365
    ensures 0 <= w <= 3
    ensures (36500 * b + 1460 * u + v - e) / 365 == 100 * b + 4 * u + w
  {
  }

  lemma LeapCorrections(b: int, u: int, w: int)
    requires 0 <= b <= 3 && 0 <= u <= 24 && 0 <= w <= 3
    ensures (100 * b + 4 * u + w) / 4 == 25 * b + u
    ensures (100 * b + 4 * u + w) / 100 == b
  {
  }

  /** Every day of an era falls in one of its 400 years, at most 365 days after
      that year's first day. */
  lemma {:induction false} YearOfEraBounds(doe: int)
    requires 0 <= doe <= 146096
    ensures 0 <= YearOfEra(doe) <= 399
    ensures 0 <= doe - DaysBeforeYearOfEra(YearOfEra(doe)) <= 365
  {
    if doe < 146096 {
      var b := doe / 36524;
      var r := doe - 36524 * b;
      var u := r / 1461;
      var v := r - 1461 * u;
      var e := (24 * b + u + v) / 1460;
      CenturyAndCycleSplit(doe, b, r, u, v, e);
      var w := (v - e) / 365;
      YearWithinCycle(b, u, v, e, w);
      LeapCorrections(b, u, w);
      assert doe - doe / 1460 + doe / 36524 - doe / 146096 == 36500 * b + 1460 * u + v - e;
      assert YearOfEra(doe) == 100 * b + 4 * u + w;
    }
  }

  /** The month (counted from March) and day of a day-of-year in 0..365. */
  lemma MonthOfYearBounds(doy: int)
    requires 0 <= doy <= 365
    ensures 0 <= (5 * doy + 2) / 153 <= 11
    ensures 1 <= doy - (153 * ((5 * doy + 2) / 153) + 2) / 5 + 1 <= 31
  {
  }

  /** The civil date of a day number (`getUTCFullYear`, `getUTCMonth() + 1`,
      `getUTCDate()`). */
  function CivilFromDays(z: int): (c: Civil)
    ensures 1 <= c.month <= 12 && 1 <= c.day <= 31
  {
    var z1 := z + 719468;
    var era := z1 / 146097;
    var doe := z1 - era * 146097;
    var yoe := YearOfEra(doe);
    YearOfEraBounds(doe);
    var doy := doe - DaysBeforeYearOfEra(yoe);
    MonthOfYearBounds(doy);
    var mp := (5 * doy + 2) / 153;
    var d := doy - (153 * mp + 2) / 5 + 1;
    var m := if mp < 10 then mp + 3 else mp - 9;
    var y := yoe + era * 400;
    Civil(if m <= 2 then y + 1 else y, m, d)
  }

  /** The day number of a civil date: the inverse of `CivilFromDays`. */
  function DaysFromCivil(c: Civil): int {
    var y := if c.month <= 2 then c.year - 1 else c.year;
    var era := y / 400;
    var yoe := y - era * 400;
    var mp := if c.month > 2 then c.month - 3 else c.month + 9;
    var doy := (153 * mp + 2) / 5 + c.day - 1;
    var doe := DaysBeforeYearOfEra(yoe) + doy;
    era * 146097 + doe - 719468
  }

  /** Converting a day number to a civil date loses nothing. */
  lemma {:induction false} CivilRoundTrip(z: int)
    ensures DaysFromCivil(CivilFromDays(z)) == z
  {
    var z1 := z + 719468;
    var era := z1 / 146097;
    var doe := z1 - era * 146097;
    var yoe := YearOfEra(doe);
    YearOfEraBounds(doe);
    var doy := doe - DaysBeforeYearOfEra(yoe);
    MonthOfYearBounds(doy);
    var mp := (5 * doy + 2) / 153;
    var y := yoe + era * 400;
    var c := CivilFromDays(z);
    var y1 := if c.month <= 2 then c.year - 1 else c.year;
    assert y1 == y;
    assert y1 / 400 == era;
    assert y1 - era * 400 == yoe;
    assert (if c.month > 2 then c.month - 3 else c.month + 9) == mp;
    assert (153 * mp + 2) / 5 + c.day - 1 == doy;
  }

  /** Distinct days have distinct civil dates. */
  lemma CivilInjective(z1: int, z2: int)
    ensures CivilFromDays(z1) == CivilFromDays(z2) ==> z1 == z2
  {
    CivilRoundTrip(z1);
    CivilRoundTrip(z2);
  }

  /** Day 0 is the first of January, 1970. */
  lemma EpochIsNewYear1970()
    ensures CivilFromDays(0) == Civil(1970, 1, 1)
  {
    // era 4, day 135080 of it: year 369 of the era, day 306 of that
    // year (counted from March), which is month index 10, day 1
    assert 719468 / 146097 == 4;
    assert YearOfEra(135080) == 369;
    assert DaysBeforeYearOfEra(369) == 134774;
    assert (5 * 306 + 2) / 153 == 10;
    assert (153 * 10 + 2) / 5 == 306;
  }

  // ------------------------------------------------------------ formatting

  predicate IsDigit(ch: char) {
    '0' <= ch <= '9'
  }

  predicate AllDigits(s: string) {
    forall i :: 0 <= i < |s| ==> IsDigit(s[i])
  }

  function DigitChar(d: int): (ch: char)
    requires 0 <= d < 10
    ensures IsDigit(ch)
  {
    ('0' as int + d) as char
  }

  /** JavaScript's `String(n)` for a non-negative integer: decimal, no
      leading zeros. */
  function NatToString(n: nat): (s: string)
    ensures 1 <= |s| && AllDigits(s)
    ensures n < 10 <==> |s| == 1
    decreases n
  {
    if n < 10 then [DigitChar(n)] else NatToString(n / 10) + [DigitChar(n % 10)]
  }

  /** `String(y)` for any integer: a minus sign before the digits when negative. */
  function IntToString(i: int): string {
    if i < 0 then "-" + NatToString(-i) else NatToString(i)
  }

  /** The number a string of decimal digits stands for. */
  function ParseNat(s: string): nat
    requires AllDigits(s)
  {
    if s == [] then 0
    else ParseNat(s[..|s| - 1]) * 10 + (s[|s| - 1] as int - '0' as int)
  }

  /** What `IntToString` produces: digits, possibly after a minus sign. */
  predicate IsIntString(y: string) {
    |y| >= 1 && (if y[0] == '-' then AllDigits(y[1..]) else AllDigits(y))
  }

  function ParseInt(s: string): int
    requires IsIntString(s)
  {
    if s[0] == '-' then 0 - ParseNat(s[1..]) else ParseNat(s)
  }

  lemma {:induction false} ParseNatString(n: nat)
    ensures ParseNat(NatToString(n)) == n
    decreases n
  {
    if n >= 10 {
      var s := NatToString(n);
      assert s[..|s| - 1] == NatToString(n / 10);
      ParseNatString(n / 10);
    }
  }

  lemma ParseIntString(i: int)
    ensures IsIntString(IntToString(i)) && ParseInt(IntToString(i)) == i
  {
    if i < 0 {
      ParseNatString(-i);
      assert IntToString(i)[1..] == NatToString(-i);
    } else {
      ParseNatString(i);
    }
  }

  /** Four-digit numbers print with four digits. */
  lemma FourDigitYear(n: nat)
    requires 1000 <= n <= 9999
    ensures |NatToString(n)| == 4
  {
    assert |NatToString(n / 10)| == 3 by {
      assert |NatToString(n / 100)| == 2 by {
        assert |NatToString(n / 1000)| == 1;
      }
    }
  }

  /** JavaScript's `s.padStart(width, fill)` with a one-character fill. */
  function PadStart(s: string, width: nat, fill: char): (r: string)
    ensures |r| == if |s| >= width then |s| else width
    decreases width - |s|
  {
    if |s| >= width then s else PadStart([fill] + s, width, fill)
  }

  /** The padded string ends with the input and is filled in front. */
  lemma {:induction false} PadStartShape(s: string, width: nat, fill: char)
    ensures var r := PadStart(s, width, fill);
      r[|r| - |s|..] == s && forall i :: 0 <= i < |r| - |s| ==> r[i] == fill
    decreases width - |s|
  {
    if |s| < width {
      PadStartShape([fill] + s, width, fill);
      var r := PadStart(s, width, fill);
      assert r[|r| - |s|..] == r[|r| - |s| - 1..][1..];
    }
  }

  /** `String(n).padStart(2, "0")`. */
  function Pad2(n: nat): string {
    PadStart(NatToString(n), 2, '0')
  }

  /** A month or a day of the month prints as exactly two digits and reads back. */
  lemma Pad2Shape(n: nat)
    requires n < 100
    ensures |Pad2(n)| == 2 && AllDigits(Pad2(n)) && ParseNat(Pad2(n)) == n
  {
    var s := NatToString(n);
    ParseNatString(n);
    if n >= 10 {
      assert |NatToString(n / 10)| == 1;
      assert Pad2(n) == s;
    } else {
      assert PadStart(['0'] + s, 2, '0') == ['0'] + s;
      assert Pad2(n) == ['0'] + s;
      assert Pad2(n)[..1] == "0";
    }
  }

  /** The date key `${anio}-${mes}-${dia}`. */
  function DateKey(c: Civil): string
    requires c.month >= 0 && c.day >= 0
  {
    IntToString(c.year) + "-" + Pad2(c.month) + "-" + Pad2(c.day)
  }

  /** The key of a day number. */
  function KeyOfDay(day: int): string {
    DateKey(CivilFromDays(day))
  }

  /** Reads a date key back: year before the last six characters, then two
      digits of month and two of day. */
  function ParseDateKey(k: string): Option<Civil> {
    if |k| < 7 then None
    else
      var y, m, d := k[..|k| - 6], k[|k| - 5..|k| - 3], k[|k| - 2..];
      if IsIntString(y) && AllDigits(m) && AllDigits(d)
      then Some(Civil(ParseInt(y), ParseNat(m), ParseNat(d)))
      else None
  }

  /** Where the pieces of `y + "-" + m + "-" + d` sit when `m` and `d` have
      two characters each. */
  lemma KeyPieces(y: string, m: string, d: string)
    requires |m| == 2 && |d| == 2
    ensures var k := y + "-" + m + "-" + d;
      |k| == |y| + 6 && k[..|k| - 6] == y && k[|k| - 5..|k| - 3] == m && k[|k| - 2..] == d
      && k[|y|] == '-' && k[|y| + 3] == '-'
  {
    var k := y + "-" + m + "-" + d;
    assert k[..|y|] == y;
    assert k[|y| + 1..|y| + 3] == m;
    assert k[|y| + 4..] == d;
  }

  lemma ParseDateKeyOfPieces(y: string, m: string, d: string)
    requires IsIntString(y) && |m| == 2 && |d| == 2 && AllDigits(m) && AllDigits(d)
    ensures ParseDateKey(y + "-" + m + "-" + d) == Some(Civil(ParseInt(y), ParseNat(m), ParseNat(d)))
  {
    KeyPieces(y, m, d);
  }

  /** A date key reads back to the date it was made from. */
  lemma DateKeyRoundTrip(c: Civil)
    requires 1 <= c.month <= 12 && 1 <= c.day <= 31
    ensures ParseDateKey(DateKey(c)) == Some(c)
  {
    var ys, ms, ds := IntToString(c.year), Pad2(c.month), Pad2(c.day);
    ParseIntString(c.year);
    Pad2Shape(c.month);
    Pad2Shape(c.day);
    ParseDateKeyOfPieces(ys, ms, ds);
  }

  /** Distinct days have distinct keys, so a log keyed by the formatted date
      and a log keyed by the day number hold the same records. */
  lemma KeyOfDayInjective(d1: int, d2: int)
    ensures KeyOfDay(d1) == KeyOfDay(d2) <==> d1 == d2
  {
    DateKeyRoundTrip(CivilFromDays(d1));
    DateKeyRoundTrip(CivilFromDays(d2));
    CivilInjective(d1, d2);
  }

  /** For four-digit years the key is ten characters `YYYY-MM-DD`, with the
      month and the day zero-padded to two digits. */
  lemma DateKeyShape(c: Civil)
    requires 1000 <= c.year <= 9999 && 1 <= c.month <= 12 && 1 <= c.day <= 31
    ensures var k := DateKey(c);
      |k| == 10 && k[4] == '-' && k[7] == '-'
      && AllDigits(k[..4]) && AllDigits(k[5..7]) && AllDigits(k[8..])
      && ParseNat(k[..4]) == c.year
      && ParseNat(k[5..7]) == c.month && ParseNat(k[8..]) == c.day
  {
    var ys, ms, ds := IntToString(c.year), Pad2(c.month), Pad2(c.day);
    FourDigitYear(c.year);
    ParseNatString(c.year);
    Pad2Shape(c.month);
    Pad2Shape(c.day);
    KeyPieces(ys, ms, ds);
  }

  // ------------------------------------------------------------ local time

  /** The day number of an instant (ms since the epoch) shifted by whole
      hours: JavaScript's `Day(t) = floor(t / msPerDay)`. */
  function LocalDay(nowMs: int, offsetHoras: int): int {
    (nowMs + offsetHoras * MS_PER_HOUR) / MS_PER_DAY
  }

  datatype FechaLocal = FechaLocal(fechaStr: string, nombreDia: string)

  /** `getFechaLocal(offsetHoras)` evaluated at the instant `nowMs`. */
  function GetFechaLocal(nowMs: int, offsetHoras: int): (f: FechaLocal)
    ensures f.nombreDia in WEEKDAY_NAMES
  {
    var day := LocalDay(nowMs, offsetHoras);
    FechaLocal(KeyOfDay(day), NameOfDay(day))
  }

  /** The key `getFechaLocal` returns is the shifted day's `YYYY-MM-DD`, ten
      characters long while the year has four digits. */
  lemma FechaLocalShape(nowMs: int, offsetHoras: int)
    requires 1000 <= CivilFromDays(LocalDay(nowMs, offsetHoras)).year <= 9999
    ensures var f := GetFechaLocal(nowMs, offsetHoras);
      var c := CivilFromDays(LocalDay(nowMs, offsetHoras));
      |f.fechaStr| == 10 && f.fechaStr[4] == '-' && f.fechaStr[7] == '-'
      && AllDigits(f.fechaStr[5..7]) && AllDigits(f.fechaStr[8..])
      && 1 <= ParseNat(f.fechaStr[5..7]) <= 12 && 1 <= ParseNat(f.fechaStr[8..]) <= 31
      && ParseDateKey(f.fechaStr) == Some(c)
  {
    var day := LocalDay(nowMs, offsetHoras);
    var c := CivilFromDays(day);
    assert GetFechaLocal(nowMs, offsetHoras).fechaStr == DateKey(c);
    DateKeyShape(c);
    DateKeyRoundTrip(c);
  }

  /** Twenty-four hours later `getFechaLocal` names the next weekday, and a
      different date. */
  lemma FechaLocalNextDay(nowMs: int, offsetHoras: int)
    ensures LocalDay(nowMs + MS_PER_DAY, offsetHoras) == LocalDay(nowMs, offsetHoras) + 1
    ensures GetFechaLocal(nowMs + MS_PER_DAY, offsetHoras).nombreDia
         == WeekdayName((Weekday(LocalDay(nowMs, offsetHoras)) + 1) % 7)
    ensures GetFechaLocal(nowMs + MS_PER_DAY, offsetHoras).fechaStr
         != GetFechaLocal(nowMs, offsetHoras).fechaStr
  {
    var day := LocalDay(nowMs, offsetHoras);
    LocalDayNext(nowMs, offsetHoras);
    FechaLocalAt(nowMs + MS_PER_DAY, offsetHoras, day + 1);
    FechaLocalAt(nowMs, offsetHoras, day);
    NextDayOfDay(day);
  }

  lemma FechaLocalAt(nowMs: int, offsetHoras: int, day: int)
    requires LocalDay(nowMs, offsetHoras) == day
    ensures GetFechaLocal(nowMs, offsetHoras).nombreDia == NameOfDay(day)
    ensures GetFechaLocal(nowMs, offsetHoras).fechaStr == KeyOfDay(day)
  {
  }

  lemma NextDayOfDay(day: int)
    ensures NameOfDay(day + 1) == WeekdayName((Weekday(day) + 1) % 7)
    ensures KeyOfDay(day + 1) != KeyOfDay(day)
  {
    WeekdayOfNextDay(day);
    KeyOfDayInjective(day + 1, day);
  }

  lemma LocalDayNext(nowMs: int, offsetHoras: int)
    ensures LocalDay(nowMs + MS_PER_DAY, offsetHoras) == LocalDay(nowMs, offsetHoras) + 1
  {
    var t := nowMs + offsetHoras * MS_PER_HOUR;
    assert (t + MS_PER_DAY) / MS_PER_DAY == t / MS_PER_DAY + 1;
  }
}
