/** Calendar days as integers.

    A day is its proleptic Gregorian ordinal, the number Python's
    `date.toordinal()` returns: day 1 is 0001-01-01, a Monday. Comparing,
    adding and subtracting days is integer arithmetic; the weekday and the
    civil (year, month, day) form are computed from the ordinal. */
module Calendar {

  type Date = int

  /** Python's `date.weekday()`: 0 is Monday, 6 is Sunday. */
  function Weekday(d: Date): (w: int)
    ensures 0 <= w < 7
  {
    (d + 6) % 7
  }

  /** Saturday or Sunday (`weekday() >= 5`). */
  predicate IsWeekend(d: Date) {
    Weekday(d) >= 5
  }

  datatype Civil = Civil(year: int, month: int, day: int)

  /** The civil date of an ordinal (Howard Hinnant's `civil_from_days`, whose
      day 0 is 1970-01-01, that is ordinal 719163; the algorithm itself first
      shifts to 0000-03-01, hence the offset 305 = 719468 - 719163). Dafny's
      `/` and `%` on a positive divisor round towards minus infinity, as the
      algorithm requires. */
  function CivilOf(d: Date): Civil {
    var z := d + 305;
    var era := z / 146097;
    var doe := z % 146097;
    var yoe := (doe - doe / 1460 + doe / 36524 - doe / 146096) / 365;
    var doy := doe - (365 * yoe + yoe / 4 - yoe / 100);
    var mp := (5 * doy + 2) / 153;
    var day := doy - (153 * mp + 2) / 5 + 1;
    var month := if mp < 10 then mp + 3 else mp - 9;
    var year := yoe + era * 400 + (if month <= 2 then 1 else 0);
    Civil(year, month, day)
  }

  /** The first day of a month (an anchor of pandas' `'MS'` frequency). */
  predicate IsMonthStart(d: Date) {
    CivilOf(d).day == 1
  }

  /** The first day of the month `d` lies in (the bin label of `resample('MS')`). */
  function MonthStart(d: Date): Date {
    d - (CivilOf(d).day - 1)
  }

  /** Spot check: 2020-10-15 is not a month start; its month starts on 2020-10-01. */
  lemma MidOctober2020()
    ensures CivilOf(737713) == Civil(2020, 10, 15)
    ensures !IsMonthStart(737713) && MonthStart(737713) == 737699
    ensures Weekday(737713) == 3
  {
    assert 738018 / 146097 == 5 && 738018 % 146097 == 7533;
    assert 7533 / 1460 == 5 && 7533 / 36524 == 0 && 7533 / 146096 == 0;
    assert 7528 / 365 == 20;
    assert 20 / 4 == 5 && 20 / 100 == 0;
    assert (5 * 228 + 2) / 153 == 7;
    assert (153 * 7 + 2) / 5 == 214;
  }

  /** Spot check: 2020-11-01 is a month start. */
  lemma FirstOfNovember2020()
    ensures CivilOf(737730) == Civil(2020, 11, 1) && IsMonthStart(737730)
  {
    assert 738035 / 146097 == 5 && 738035 % 146097 == 7550;
    assert 7550 / 1460 == 5 && 7550 / 36524 == 0 && 7550 / 146096 == 0;
    assert 7545 / 365 == 20;
    assert 20 / 4 == 5 && 20 / 100 == 0;
    assert (5 * 245 + 2) / 153 == 8;
    assert (153 * 8 + 2) / 5 == 245;
  }
}
