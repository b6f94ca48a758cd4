/** `date` of std/time.stacky up to the month index, and the calendar it computes. */
module Calendar {
  import opened Words

  // ----- the calendar, counted in years that start on the first of March -----

  /** The Gregorian rule, on calendar years. */
  predicate IsLeap(y: nat) {
    y % 4 == 0 && (y % 100 != 0 || y % 400 == 0)
  }

  /** Year `y` ends with the February of calendar year `y + 1`. */
  function YearLength(y: nat): nat {
    if IsLeap(y + 1) then 366 else 365
  }

  /** March first. */
  function MonthLength(y: nat, m: nat): nat {
    if m == 11 then YearLength(y) - 337
    else if m in {1, 3, 6, 8} then 30
    else 31
  }

  /** Days between the first of March of year 0 and that of year `y`. */
  function YearStart(y: nat): int {
    365 * y + y / 4 - y / 100 + y / 400
  }

  /** Days of year `y` before month `m`. */
  function MonthStart(y: nat, m: nat): nat {
    if m == 0 then 0 else MonthStart(y, m - 1) + MonthLength(y, m - 1)
  }

  predicate IsDate(y: nat, m: nat, d: nat) {
    m <= 11 && 1 <= d <= MonthLength(y, m)
  }

  /** Days since the first of March of year 0. */
  function DayNumber(y: nat, m: nat, d: nat): int {
    YearStart(y) + MonthStart(y, m) + d - 1
  }

  lemma YearsFollow(y: nat)
    ensures YearStart(y + 1) == YearStart(y) + YearLength(y)
  {
    assert (y + 1) / 4 == y / 4 + if (y + 1) % 4 == 0 then 1 else 0;
    assert (y + 1) / 100 == y / 100 + if (y + 1) % 100 == 0 then 1 else 0;
    assert (y + 1) / 400 == y / 400 + if (y + 1) % 400 == 0 then 1 else 0;
    assert (y + 1) % 100 == 0 ==> (y + 1) % 4 == 0;
    assert (y + 1) % 400 == 0 ==> (y + 1) % 100 == 0;
  }

  lemma {:induction false} YearsGrow(y: nat, z: nat)
    requires y < z
    ensures YearStart(y) + YearLength(y) <= YearStart(z)
    decreases z - y
  {
    YearsFollow(z - 1);
    if y < z - 1 {
      YearsGrow(y, z - 1);
    }
  }

  lemma MonthTable(y: nat, m: nat)
    requires m <= 12
    ensures MonthStart(y, m) == if m == 12 then YearLength(y)
        else [0, 31, 61, 92, 122, 153, 184, 214, 245, 275, 306, 337][m]
  {
    if m > 0 {
      MonthTable(y, m - 1);
    }
  }

  lemma {:induction false} MonthsGrow(y: nat, m: nat, n: nat)
    requires m < n
    ensures MonthStart(y, m) + MonthLength(y, m) <= MonthStart(y, n)
    decreases n
  {
    if m < n - 1 {
      MonthsGrow(y, m, n - 1);
    }
  }

  /** A date lies within its year. */
  lemma DateInYear(y: nat, m: nat, d: nat)
    requires IsDate(y, m, d)
    ensures YearStart(y) <= DayNumber(y, m, d) < YearStart(y) + YearLength(y)
  {
    MonthsGrow(y, m, 12);
    MonthTable(y, 12);
  }

  /** Different dates are different days. */
  lemma DateUnique(y: nat, m: nat, d: nat, y': nat, m': nat, d': nat)
    requires IsDate(y, m, d) && IsDate(y', m', d') && DayNumber(y, m, d) == DayNumber(y', m', d')
    ensures y == y' && m == m' && d == d'
  {
    hide YearStart;
    hide YearLength;
    DateInYear(y, m, d);
    DateInYear(y', m', d');
    if y < y' {
      YearsGrow(y, y');
    } else if y' < y {
      YearsGrow(y', y);
    } else if m < m' {
      MonthsGrow(y, m, m');
    } else if m' < m {
      MonthsGrow(y, m', m);
    }
  }

  const ERA_DAYS: nat := 146097

  const EPOCH_SHIFT: nat := 719468

  // ----- year of era -----

  function YearOfEra(doe: nat): int {
    (doe - doe / 1460 + doe / 36524 - doe / 146096) / 365
  }

  /** A day of the era by century, four-year group, year and day; the last century and year may be a day longer. */
  ghost predicate Split(doe: nat, century: nat, group: nat, s: nat) {
    && century <= 3 && group <= 24 && s <= 1460
    && doe == 36524 * century + 1461 * group + s
    && (group == 24 && century < 3 ==> s <= 1459)
  }

  lemma SplitDay(doe: nat) returns (century: nat, group: nat, s: nat)
    requires doe < ERA_DAYS
    ensures Split(doe, century, group, s)
    ensures doe / 36524 - doe / 146096 == century
  {
    century := if doe == 146096 then 3 else doe / 36524;
    var r := doe - 36524 * century;
    group := r / 1461;
    s := r % 1461;
    assert r == 1461 * group + s;
  }

  lemma FourYearDays(doe: nat, century: nat, group: nat, s: nat)
    requires Split(doe, century, group, s)
    ensures doe / 1460 == 25 * century + group + if 24 * century + group + s >= 1460 then 1 else 0
  {
    var rest := 24 * century + group + s;
    assert doe == 1460 * (25 * century + group) + rest;
    assert rest < 2920;
  }

  lemma YearInGroup(doe: nat, century: nat, group: nat, s: nat)
    requires doe < ERA_DAYS && Split(doe, century, group, s) && doe / 36524 - doe / 146096 == century
    ensures YearOfEra(doe) == 100 * century + 4 * group + if s == 1460 then 3 else s / 365
  {
    FourYearDays(doe, century, group, s);
    var late := if 24 * century + group + s >= 1460 then 1 else 0;
    assert doe - doe / 1460 + doe / 36524 - doe / 146096 == 365 * (100 * century + 4 * group) + (s - late);
    assert (s - late) / 365 == if s == 1460 then 3 else s / 365;
  }

  lemma YearStartSplit(century: nat, group: nat, year: nat)
    requires century <= 3 && group <= 24 && year <= 3
    ensures YearStart(100 * century + 4 * group + year) == 36524 * century + 1461 * group + 365 * year
  {
    var y := 100 * century + 4 * group + year;
    assert y / 4 == 25 * century + group;
    assert y / 100 == century;
    assert y / 400 == 0;
  }

  /** The computed year of the era is the year the day lies in. */
  lemma YearOfEraIsCalendarYear(doe: nat)
    requires doe < ERA_DAYS
    ensures var y := YearOfEra(doe);
      0 <= y <= 399 && YearStart(y) <= doe < YearStart(y + 1)
  {
    var century, group, s := SplitDay(doe);
    YearInGroup(doe, century, group, s);
    var year := if s == 1460 then 3 else s / 365;
    YearStartSplit(century, group, year);
    if year < 3 {
      YearStartSplit(century, group, year + 1);
    } else if group < 24 {
      assert 100 * century + 4 * group + 4 == 100 * century + 4 * (group + 1) + 0;
      YearStartSplit(century, group + 1, 0);
    } else if century < 3 {
      assert 100 * century + 4 * group + 4 == 100 * (century + 1) + 4 * 0 + 0;
      YearStartSplit(century + 1, 0, 0);
    } else {
      assert YearStart(400) == ERA_DAYS;
    }
  }

  lemma EraShifts(era: nat, y: nat)
    ensures YearStart(400 * era + y) == ERA_DAYS * era + YearStart(y)
  {
    assert (400 * era + y) / 4 == 100 * era + y / 4;
    assert (400 * era + y) / 100 == 4 * era + y / 100;
    assert (400 * era + y) / 400 == era + y / 400;
  }

  // ----- month and day -----

  lemma MonthBounds(doy: nat)
    requires doy <= 365
    ensures var m := (5 * doy + 2) / 153;
      && m <= 11 && (153 * m + 2) / 5 <= doy
      && (m < 11 ==> doy < (153 * (m + 1) + 2) / 5)
  {
  }

  lemma MonthFormula(y: nat, m: nat)
    requires m <= 11
    ensures (153 * m + 2) / 5 == MonthStart(y, m)
  {
    MonthTable(y, m);
  }

  /** The computed month and day form a date of the year, on that day of it. */
  lemma MonthIsCalendarMonth(y: nat, doy: nat)
    requires doy < YearLength(y)
    ensures var m := (5 * doy + 2) / 153;
      var d := doy - (153 * m + 2) / 5 + 1;
      && m <= 11 && 1 <= d <= 31 && IsDate(y, m, d) && MonthStart(y, m) + d - 1 == doy
  {
    hide MonthStart;
    var m := (5 * doy + 2) / 153;
    MonthBounds(doy);
    MonthFormula(y, m);
    MonthTable(y, m);
    MonthTable(y, m + 1);
    MonthNext(y, m);
    if m < 11 {
      MonthFormula(y, m + 1);
    }
  }

  lemma MonthNext(y: nat, m: nat)
    ensures MonthStart(y, m + 1) == MonthStart(y, m) + MonthLength(y, m)
  {
  }

  // ----- the program -----

  /** Arithmetic that stays within a word does not wrap. */
  lemma Fits(x: int)
    requires 0 <= x < WORD_SIZE
    ensures Wrap(x) == x
  {
  }

  /** Years of different eras are equally long. */
  lemma EraYear(era: nat, yoe: nat)
    ensures YearStart(400 * era + yoe) == ERA_DAYS * era + YearStart(yoe)
    ensures YearLength(400 * era + yoe) == YearLength(yoe)
  {
    hide YearStart;
    hide YearLength;
    EraShifts(era, yoe);
    EraShifts(era, yoe + 1);
    YearsFollow(yoe);
    YearsFollow(400 * era + yoe);
    assert 400 * era + yoe + 1 == 400 * era + (yoe + 1);
  }

  lemma Hours(x: nat)
    ensures x / 60 / 60 == x / 3600
  {
    var a := x / 60;
    var b := a / 60;
    assert 60 * a <= x < 60 * a + 60 && 60 * b <= a < 60 * b + 60;
    assert 3600 * b <= x < 3600 * b + 3600;
  }

  lemma Days(x: nat)
    ensures x / 60 / 60 / 24 == x / 86400
  {
    Hours(x);
    var a := x / 3600;
    var b := a / 24;
    assert 3600 * a <= x < 3600 * a + 3600 && 24 * b <= a < 24 * b + 24;
    assert 86400 * b <= x < 86400 * b + 86400;
  }

  class Clock {
    /** The cell `date` keeps the era in. */
    var era: Word

    constructor ()
      ensures era == 0
    {
      era := 0;
    }

    /** Year of the era. */
    method YearWithin(doe: Word) returns (yoe: Word)
      requires doe < ERA_DAYS
      ensures yoe == YearOfEra(doe) && yoe <= 399 && YearStart(yoe) <= doe < YearStart(yoe) + YearLength(yoe)
    {
      hide Wrap;
      hide YearStart;
      hide YearLength;
      YearOfEraIsCalendarYear(doe);
      YearsFollow(YearOfEra(doe));
      Fits(doe - doe / 1460);
      Fits(doe - doe / 1460 + doe / 36524);
      Fits(doe - doe / 1460 + doe / 36524 - doe / 146096);
      yoe := Wrap(Wrap(Wrap(doe - doe / 1460) + doe / 36524) - doe / 146096) / 365;
    }

    /** Day of the year. */
    method DayWithin(doe: Word, yoe: Word) returns (doy: Word)
      requires yoe <= 399 && YearStart(yoe) <= doe < ERA_DAYS
      ensures YearStart(yoe) + doy == doe
    {
      hide Wrap;
      assert yoe / 400 == 0 && yoe / 100 <= yoe;
      Fits(yoe * 365);
      Fits(yoe * 365 + yoe / 4);
      Fits(yoe * 365 + yoe / 4 - yoe / 100);
      Fits(doe - (yoe * 365 + yoe / 4 - yoe / 100));
      doy := Wrap(doe - Wrap(Wrap(Wrap(yoe * 365) + yoe / 4) - yoe / 100));
    }

    /** Year and day of the year, from the shifted day count. */
    method YearAndDay(z: Word) returns (y: Word, doy: Word)
      requires z < 0x1000_0000_0000_0000
      modifies this
      ensures era == z / ERA_DAYS && 400 * era <= y <= 400 * era + 399
      ensures doy < YearLength(y) && YearStart(y) + doy == z
    {
      hide Wrap;
      hide YearStart;
      hide YearLength;
      hide YearOfEra;
      era := z / 146097;
      Fits(era * 146097);
      Fits(z - era * 146097);
      var doe := Wrap(z - Wrap(era * 146097));
      var yoe := YearWithin(doe);
      EraYear(era, yoe);
      Fits(era * 400);
      Fits(yoe + era * 400);
      y := Wrap(yoe + Wrap(era * 400));
      doy := DayWithin(doe, yoe);
    }

    /** Month index and day of the month. */
    method MonthAndDay(y: Word, doy: Word) returns (d: Word, m: Word)
      requires doy < YearLength(y)
      ensures IsDate(y, m, d) && MonthStart(y, m) + d - 1 == doy
    {
      hide Wrap;
      hide MonthStart;
      hide IsDate;
      MonthIsCalendarMonth(y, doy);
      assert YearLength(y) <= 366;
      Fits(doy * 5);
      Fits(doy * 5 + 2);
      m := Wrap(Wrap(doy * 5) + 2) / 153;
      Fits(m * 153);
      Fits(m * 153 + 2);
      var before := Wrap(Wrap(m * 153) + 2) / 5;
      Fits(doy - before);
      Fits(doy - before + 1);
      d := Wrap(Wrap(doy - before) + 1);
    }

    /**
     `date`, up to the month index: the results are the one calendar date of that day, and the time of
     day, whatever the number of seconds.
     */
    method Date(seconds: Word) returns (minute: Word, hour: Word, y: Word, d: Word, m: Word)
      modifies this
      ensures DayNumber(y, m, d) == seconds / 86400 + EPOCH_SHIFT && IsDate(y, m, d)
      ensures hour == seconds / 3600 % 24 && minute == seconds / 60 % 60
      ensures era == DayNumber(y, m, d) / ERA_DAYS
    {
      hide Wrap;
      hide YearStart;
      hide MonthStart;
      hide IsDate;
      var minutes := seconds / 60;
      minute := minutes % 60;
      var hours := minutes / 60;
      hour := hours % 24;
      Hours(seconds);
      Days(seconds);
      var days := hours / 24;
      assert days < 0x1_0000_0000_0000;
      Fits(days + 719468);
      var doy;
      y, doy := YearAndDay(Wrap(days + 719468));
      d, m := MonthAndDay(y, doy);
    }
  }
}
