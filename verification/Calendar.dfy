/** The Gregorian calendar from 1970 on, counted month by month and year by year. */
module Calendar {

  predicate IsLeap(year: nat) {
    year % 4 == 0 && (year % 100 != 0 || year % 400 == 0)
  }

  function DaysInMonth(leap: bool, month: nat): nat
    requires 1 <= month <= 12
  {
    if month == 2 then (if leap then 29 else 28)
    else if month == 4 || month == 6 || month == 9 || month == 11 then 30
    else 31
  }

  function DaysBeforeMonth(leap: bool, month: nat): nat
    requires 1 <= month <= 12
  {
    if month == 1 then 0 else DaysBeforeMonth(leap, month - 1) + DaysInMonth(leap, month - 1)
  }

  function DaysBeforeYear(year: nat): nat
    requires 1970 <= year
  {
    if year == 1970 then 0 else DaysBeforeYear(year - 1) + if IsLeap(year - 1) then 366 else 365
  }

  datatype Date = Date(year: nat, month: nat, day: nat)

  predicate Valid(d: Date) {
    1970 <= d.year && 1 <= d.month <= 12 && 1 <= d.day <= DaysInMonth(IsLeap(d.year), d.month)
  }

  /** The days from 1970-01-01 to the date. */
  function DayNumber(d: Date): nat
    requires Valid(d)
  {
    DaysBeforeYear(d.year) + DaysBeforeMonth(IsLeap(d.year), d.month) + d.day - 1
  }

  lemma LeapUpTo2100(year: nat)
    requires 1970 <= year < 2100
    ensures IsLeap(year) <==> year % 4 == 0
  {
    if year % 100 == 0 {
      assert year == 2000;
    }
  }

  /** Leap years are counted by a division. */
  lemma {:induction false} YearFormula(year: nat)
    requires 1970 <= year <= 2100
    ensures DaysBeforeYear(year) == 365 * (year - 1970) + (year - 1969) / 4
  {
    if year == 1970 {
    } else {
      YearFormula(year - 1);
      LeapUpTo2100(year - 1);
    }
  }

  lemma {:induction false} YearGrows(y: nat, z: nat)
    requires 1970 <= y < z
    ensures DaysBeforeYear(y) + (if IsLeap(y) then 366 else 365) <= DaysBeforeYear(z)
  {
    if y + 1 == z {
    } else {
      YearGrows(y, z - 1);
    }
  }

  lemma {:induction false} MonthGrows(leap: bool, m: nat, n: nat)
    requires 1 <= m < n <= 12
    ensures DaysBeforeMonth(leap, m) + DaysInMonth(leap, m) <= DaysBeforeMonth(leap, n)
  {
    if m + 1 == n {
    } else {
      MonthGrows(leap, m, n - 1);
    }
  }

  lemma MonthInYear(leap: bool, m: nat)
    requires 1 <= m <= 12
    ensures DaysBeforeMonth(leap, m) + DaysInMonth(leap, m) <= if leap then 366 else 365
  {
    if m < 12 {
      MonthGrows(leap, m, 12);
    }
    MonthTable(leap);
  }

  lemma MonthTable(leap: bool)
    ensures DaysBeforeMonth(leap, 1) == 0 && DaysBeforeMonth(leap, 2) == 31
    ensures var x := if leap then 1 else 0;
            && DaysBeforeMonth(leap, 3) == 59 + x && DaysBeforeMonth(leap, 4) == 90 + x
            && DaysBeforeMonth(leap, 5) == 120 + x && DaysBeforeMonth(leap, 6) == 151 + x
            && DaysBeforeMonth(leap, 7) == 181 + x && DaysBeforeMonth(leap, 8) == 212 + x
            && DaysBeforeMonth(leap, 9) == 243 + x && DaysBeforeMonth(leap, 10) == 273 + x
            && DaysBeforeMonth(leap, 11) == 304 + x && DaysBeforeMonth(leap, 12) == 334 + x
  {
    assert DaysBeforeMonth(leap, 2) == 31;
    assert DaysBeforeMonth(leap, 4) == DaysBeforeMonth(leap, 3) + 31;
    assert DaysBeforeMonth(leap, 6) == DaysBeforeMonth(leap, 5) + 31;
    assert DaysBeforeMonth(leap, 8) == DaysBeforeMonth(leap, 7) + 31;
    assert DaysBeforeMonth(leap, 10) == DaysBeforeMonth(leap, 9) + 30;
    assert DaysBeforeMonth(leap, 12) == DaysBeforeMonth(leap, 11) + 30;
  }

  /** A day number is of one date only. */
  lemma DateUnique(d: Date, e: Date)
    requires Valid(d) && Valid(e) && DayNumber(d) == DayNumber(e)
    ensures d == e
  {
    MonthInYear(IsLeap(d.year), d.month);
    MonthInYear(IsLeap(e.year), e.month);
    if d.year < e.year {
      YearGrows(d.year, e.year);
    } else if e.year < d.year {
      YearGrows(e.year, d.year);
    } else if d.month < e.month {
      MonthGrows(IsLeap(d.year), d.month, e.month);
    } else if e.month < d.month {
      MonthGrows(IsLeap(d.year), e.month, d.month);
    }
  }
}
