/** Reading and writing UTCTime (lib/casn/casn_time.c, section 4.1.2.5.1 of RFC 5280). */
module UtcTime {
  import opened Options
  import opened Calendar

  const MOS: seq<nat> := [0, 31, 59, 90, 120, 151, 181, 212, 243, 273, 304, 334, 365, 366]

  // ----- digits -----

  function Digit(d: nat): char
    requires d < 10
  {
    '0' + d as char
  }

  predicate IsDigit(c: char) {
    '0' <= c <= '9'
  }

  function Digits(val: nat, lth: nat): (s: string)
    ensures |s| == lth && forall i :: 0 <= i < lth ==> IsDigit(s[i])
  {
    if lth == 0 then "" else Digits(val / 10, lth - 1) + [Digit(val % 10)]
  }

  function Value(c: char): (v: nat)
    ensures v < 10
  {
    if IsDigit(c) then (c - '0') as nat else 0
  }

  function Number(s: string): nat {
    if s == "" then 0 else Number(s[..|s| - 1]) * 10 + Value(s[|s| - 1])
  }

  /** The number in two digits from i on. */
  function Num2(s: string, i: nat): nat
    requires i + 2 <= |s|
  {
    10 * Value(s[i]) + Value(s[i + 1])
  }

  function Num4(s: string, i: nat): nat
    requires i + 4 <= |s|
  {
    100 * Num2(s, i) + Num2(s, i + 2)
  }

  lemma NumberIs2(s: string, i: nat)
    requires i + 2 <= |s|
    ensures Number(s[i..i + 2]) == Num2(s, i)
  {
    var t := s[i..i + 2];
    assert t[..1] == [s[i]] && t[1] == s[i + 1];
    assert Number(t[..1]) == Value(s[i]);
  }

  lemma NumberIs4(s: string, i: nat)
    requires i + 4 <= |s|
    ensures Number(s[i..i + 4]) == Num4(s, i)
  {
    var t := s[i..i + 4];
    assert t[0] == s[i] && t[1] == s[i + 1] && t[2] == s[i + 2] && t[3] == s[i + 3];
    NumberIs2(t, 0);
    assert t[..3][..2] == t[0..2];
    assert Number(t[..3]) == 10 * Num2(s, i) + Value(s[i + 2]);
  }

  /** From i on stand the last two digits of v. */
  predicate Shows(s: string, i: nat, v: nat) {
    i + 2 <= |s| && s[i] == Digit(v / 10 % 10) && s[i + 1] == Digit(v % 10)
  }

  /** put_num. */
  method PutNum(to: array<char>, at: nat, val: nat, lth: nat)
    requires at + lth <= to.Length
    modifies to
    ensures to[at..at + lth] == Digits(val, lth)
    ensures forall i :: 0 <= i < to.Length && !(at <= i < at + lth) ==> to[i] == old(to[i])
  {
    var c, left := lth, val;
    ghost var tail: string := "";
    while c > 0
      invariant 0 <= c <= lth && |tail| == lth - c && Digits(val, lth) == Digits(left, c) + tail
      invariant to[at + c..at + lth] == tail
      invariant forall i :: 0 <= i < to.Length && !(at <= i < at + lth) ==> to[i] == old(to[i])
    {
      c := c - 1;
      to[at + c] := Digit(left % 10);
      tail := [Digit(left % 10)] + tail;
      left := left / 10;
    }
  }

  /** put_num of two digits. */
  method Put2(to: array<char>, at: nat, val: nat)
    requires at + 2 <= to.Length
    modifies to
    ensures Shows(to[..], at, val)
    ensures forall i :: 0 <= i < to.Length && !(at <= i < at + 2) ==> to[i] == old(to[i])
  {
    PutNum(to, at, val, 2);
    assert to[at] == to[at..at + 2][0] && to[at + 1] == to[at..at + 2][1];
  }

  const INT_MAX := 0x7fff_ffff

  lemma {:induction false} NumberGrows(s: string, i: nat)
    requires i <= |s|
    ensures Number(s[..i]) <= Number(s)
    decreases |s|
  {
    if i < |s| {
      assert s[..|s| - 1][..i] == s[..i];
      NumberGrows(s[..|s| - 1], i);
    } else {
      assert s[..i] == s;
    }
  }

  /** get_num; -1 if a character is not a digit or the number does not fit an int. */
  method GetNum(s: string) returns (r: int)
    ensures r == if AllDigits(s) && Number(s) <= INT_MAX then Number(s) else -1
  {
    var val := 0;
    for i := 0 to |s|
      invariant forall k :: 0 <= k < i ==> IsDigit(s[k])
      invariant val == Number(s[..i]) <= INT_MAX
    {
      if IsDigit(s[i]) {
        assert s[..i + 1][..i] == s[..i];
        val := val * 10 + Value(s[i]);
      } else {
        return -1;
      }
      if val > INT_MAX {
        NumberGrows(s, i + 1);
        return -1;
      }
    }
    assert s[..|s|] == s;
    return val;
  }

  // ----- dates -----

  /** The day number in the calendar in which every fourth year is a leap year. */
  function DayCount(d: Date): nat
    requires 1970 <= d.year && 1 <= d.month <= 12 && 1 <= d.day
  {
    365 * (d.year - 1970) + (d.year - 1969) / 4 + DaysBeforeMonth(d.year % 4 == 0, d.month) + d.day - 1
  }

  /** The cycle of 1461 days: three years of 365 days and one of 366. */
  lemma Cycle(days: nat, cycles: nat, r: nat)
    requires days + 365 == 1461 * cycles + r && r < 1461
    ensures var k := if r == 1460 then 3 else r / 365;
            var years := cycles * 4 + k - 1;
            var da := if r == 1460 then 365 else r % 365;
            && k <= 3 && years >= 0 && 365 * years + (years + 1) / 4 + da == days
            && (da == 365 ==> years % 4 == 2) && da <= 365
  {
    var k := if r == 1460 then 3 else r / 365;
    assert (cycles * 4 + k) / 4 == cycles;
  }

  /** write_casn_time's date: for every day number, in the calendar in which every fourth
      year is a leap year. */
  method WriteDate(days: nat) returns (years: nat, month: nat, day: nat)
    ensures 1 <= month <= 12 && 1 <= day <= DaysInMonth((1970 + years) % 4 == 0, month)
    ensures DayCount(Date(1970 + years, month, day)) == days
  {
    var time := days + 365;                       // since the year after a leap year
    var da := time % 1461;
    time := time / 1461;
    Cycle(days, time, da);
    years := time * 4 + (if da == 1460 then 3 else da / 365) - 1;
    da := if da == 1460 then 365 else da % 365;
    month, day := WriteMonth(years, da);
  }

  /** The first month that begins behind a day of the year. */
  method FindMonth(da: nat) returns (mop: nat)
    requires da < 366
    ensures 1 <= mop <= 13 && MOS[mop - 1] <= da < MOS[mop]
  {
    mop := 0;
    while da >= MOS[mop]
      invariant mop <= 13 && (mop > 0 ==> MOS[mop - 1] <= da)
      decreases 13 - mop
    {
      mop := mop + 1;
    }
  }

  /** The month and the day from the day of the year, counted from 0. */
  method WriteMonth(years: nat, dayOfYear: nat) returns (month: nat, day: nat)
    requires dayOfYear < 365 || (dayOfYear == 365 && years % 4 == 2)
    ensures var leap := (1970 + years) % 4 == 0;
            && 1 <= month <= 12 && 1 <= day <= DaysInMonth(leap, month)
            && DaysBeforeMonth(leap, month) + day - 1 == dayOfYear
  {
    var da := dayOfYear;
    var mop := FindMonth(da);
    if mop > 12 {
      mop := mop - 1;
    }
    if years % 4 == 2 {
      if da == 59 {
        mop := mop - 1;
      } else if da > 59 {
        da := da - 1;
        if da < MOS[mop - 1] {
          mop := mop - 1;
        }
      }
    }
    Mos(years % 4 == 2, mop);
    month, day := mop, da + 1 - MOS[mop - 1];
  }

  /** The table holds the days before each month of a year that is not a leap year. */
  lemma Mos(leap: bool, month: nat)
    requires 1 <= month <= 12
    ensures DaysBeforeMonth(leap, month) == MOS[month - 1] + if leap && month > 2 then 1 else 0
    ensures DaysInMonth(leap, month) == MOS[month] - MOS[month - 1] + if leap && month == 2 then 1 else 0
  {
    MonthTable(leap);
  }

  // ----- writing -----

  /** 2050-01-01, the first second that UTCTime cannot hold. */
  const LIMIT := 2524608000

  /** The text of a time on a date; of the year, only the last two digits are left. */
  predicate IsText(s: string, d: Date, time: nat)
    requires d.year >= 1900
  {
    && |s| == 13 && s[12] == 'Z'
    && Shows(s, 0, d.year - 1900) && Shows(s, 2, d.month) && Shows(s, 4, d.day)
    && Shows(s, 6, time / 3600 % 24) && Shows(s, 8, time / 60 % 60) && Shows(s, 10, time % 60)
  }

  lemma DateOf(years: nat, month: nat, day: nat, days: nat)
    requires 1 <= month <= 12 && 1 <= day <= DaysInMonth((1970 + years) % 4 == 0, month)
    requires DayCount(Date(1970 + years, month, day)) == days
    ensures years < 130 ==>
              var d := Date(1970 + years, month, day); Valid(d) && DayNumber(d) == days
    ensures years >= 80 <==> days >= 29220
  {
    MonthInYear((1970 + years) % 4 == 0, month);
    if years < 130 {
      LeapUpTo2100(1970 + years);
      CountsUpTo2100(Date(1970 + years, month, day));
    }
  }

  /** write_casn_time's hours, minutes and seconds. */
  method PutClock(to: array<char>, time: nat) returns (days: nat)
    requires to.Length >= 13
    modifies to
    ensures days == time / 86400
    ensures Shows(to[..], 6, time / 3600 % 24) && Shows(to[..], 8, time / 60 % 60) && Shows(to[..], 10, time % 60)
  {
    var sec, left := time % 60, time / 60;
    var min := left % 60;
    left := left / 60;
    var hr := left % 24;
    Put2(to, 10, sec);
    Put2(to, 8, min);
    Put2(to, 6, hr);
    days := left / 24;
  }

  /** write_casn_time on a UTCTime. */
  method WriteUtcTime(to: array<char>, time: nat) returns (lth: int, ghost date: Date)
    requires to.Length >= 13
    modifies to
    ensures lth == if time < LIMIT then 13 else -1
    ensures time < LIMIT ==>
              && Valid(date) && DayNumber(date) == time / 86400 && date.year < 2050
              && IsText(to[..13], date, time)
              && forall d :: Valid(d) && DayNumber(d) == time / 86400 ==> d == date
  {
    var days := PutClock(to, time);
    var years, month, day := WriteDate(days);
    DateOf(years, month, day, days);
    Put2(to, 4, day);
    Put2(to, 2, month);
    date := Date(1970 + years, month, day);
    if years >= 80 {
      return -1, date;
    }
    Put2(to, 0, years + 70);
    to[12] := 'Z';
    lth := 13;
    forall d | Valid(d) && DayNumber(d) == time / 86400 ensures d == date {
      DateUnique(d, date);
    }
  }

  // ----- reading -----

  /** The characters from i on that get_num looks at; behind the end stands a NUL. */
  function Field(s: string, i: nat, lth: nat): string {
    if i + lth <= |s| then s[i..i + lth] else "\0"
  }

  predicate AllDigits(s: string) {
    forall i :: 0 <= i < |s| ==> IsDigit(s[i])
  }

  /** How many digits the text starts with. */
  function Span(s: string): (n: nat)
    ensures n <= |s| && (n < |s| ==> !IsDigit(s[n])) && forall i :: 0 <= i < n ==> IsDigit(s[i])
  {
    if s == "" || !IsDigit(s[0]) then 0 else 1 + Span(s[1..])
  }

  lemma SpanIs(s: string, n: nat)
    requires n <= |s| && (n < |s| ==> !IsDigit(s[n])) && forall i :: 0 <= i < n ==> IsDigit(s[i])
    ensures Span(s) == n
  {
  }

  function DateIn(s: string): Date
    requires |s| >= 8
  {
    Date(Num4(s, 0), Num2(s, 4), Num2(s, 6))
  }

  /** _gentime_to_ulong counts centuries from 1970 and takes February 29 only in the first
      of four. */
  predicate Accepted(d: Date) {
    Valid(d) && !(d.month == 2 && d.day == 29 && (d.year - 1970) / 100 % 4 > 0)
  }

  /** Hours and minutes, and seconds if there are more than twelve digits. */
  predicate ClockOk(s: string, n: nat)
    requires n <= |s|
  {
    n >= 12 && n != 13 && Num2(s, 8) < 24 && Num2(s, 10) < 60 && (n > 12 ==> Num2(s, 12) < 60)
  }

  function ClockOf(s: string, n: nat): nat
    requires n <= |s| && ClockOk(s, n)
  {
    Num2(s, 8) * 3600 + Num2(s, 10) * 60 + if n > 12 then Num2(s, 12) else 0
  }

  /** The minutes that a time zone is ahead. */
  function Zone(t: string): int {
    if |t| != 5 then 0
    else
      var ahead := Num2(t, 1) * 60 + Num2(t, 3);
      if t[0] == '-' then -ahead else ahead
  }

  /** Nothing, "Z" or a time zone from twelve hours behind to fourteen ahead. */
  predicate ZoneOk(t: string) {
    || t == "" || t == "Z"
    || (&& |t| == 5 && (t[0] == '+' || t[0] == '-') && AllDigits(t[1..])
        && Num2(t, 1) < 24 && Num2(t, 3) < 60 && -12 * 60 <= Zone(t) <= 14 * 60)
  }

  /** What _gentime_to_ulong makes of a text. */
  function TimeOf(s: string): (r: Option<int>)
    ensures r.Some? ==> r.value >= 0
  {
    var n := Span(s);
    if ClockOk(s, n) && Accepted(DateIn(s)) && ZoneOk(s[n..]) then
      var time := DayCount(DateIn(s)) * 86400 + ClockOf(s, n) - 60 * Zone(s[n..]);
      if time < 0 then None else Some(time)
    else None
  }

  // ----- its calendar -----

  lemma {:induction false} LeapDays(year: nat)
    requires 1970 <= year
    ensures DaysBeforeYear(year) <= 365 * (year - 1970) + (year - 1969) / 4
    ensures year > 2100 ==> DaysBeforeYear(year) < 365 * (year - 1970) + (year - 1969) / 4
  {
    if year <= 2100 {
      YearFormula(year);
    } else {
      LeapDays(year - 1);
      if year == 2101 {
        YearFormula(2100);
      }
    }
  }

  /** The day numbers are those of the Gregorian calendar exactly before March 2100. */
  lemma CountsUpTo2100(d: Date)
    requires Valid(d)
    ensures DayCount(d) == DayNumber(d) <==> d.year < 2100 || (d.year == 2100 && d.month <= 2)
  {
    Mos(IsLeap(d.year), d.month);
    Mos(d.year % 4 == 0, d.month);
    LeapDays(d.year);
    if d.year <= 2100 {
      YearFormula(d.year);
      if d.year < 2100 {
        LeapUpTo2100(d.year);
      }
    }
  }

  /** The first date that is rejected. */
  lemma FirstRejected(d: Date)
    requires Valid(d)
    ensures Valid(Date(2072, 2, 29)) && !Accepted(Date(2072, 2, 29))
    ensures DayNumber(d) < DayNumber(Date(2072, 2, 29)) ==> Accepted(d)
  {
    var first := Date(2072, 2, 29);
    assert IsLeap(2072);
    if !Accepted(d) {
      assert d.year >= 2070 && d.year % 4 == 0;
      if d.year > 2072 {
        YearGrows(2072, d.year);
        MonthInYear(true, 2);
        assert DayNumber(first) == DaysBeforeYear(2072) + DaysBeforeMonth(true, 2) + 28;
      }
    }
  }

  lemma DigitsInside(s: string, n: nat, i: nat, lth: nat)
    requires i + lth <= n <= |s| && AllDigits(s[..n])
    ensures AllDigits(Field(s, i, lth))
  {
    assert Field(s, i, lth) == s[..n][i..i + lth];
  }

  lemma Field2(s: string, n: nat, i: nat)
    requires i + 2 <= n <= |s| && AllDigits(s[..n])
    ensures AllDigits(Field(s, i, 2)) && Number(Field(s, i, 2)) == Num2(s, i)
  {
    DigitsInside(s, n, i, 2);
    NumberIs2(s, i);
  }

  lemma DateFields(s: string)
    requires |s| >= 8 && AllDigits(s[..8])
    ensures AllDigits(Field(s, 0, 4)) && Number(Field(s, 0, 4)) == Num4(s, 0)
    ensures AllDigits(Field(s, 4, 2)) && Number(Field(s, 4, 2)) == Num2(s, 4)
    ensures AllDigits(Field(s, 6, 2)) && Number(Field(s, 6, 2)) == Num2(s, 6)
  {
    DigitsInside(s, 8, 0, 4);
    NumberIs4(s, 0);
    Field2(s, 8, 4);
    Field2(s, 8, 6);
  }

  /** One of the three fields is not a number then. */
  lemma DateFieldsNeeded(s: string)
    requires |s| < 8 || !AllDigits(s[..8])
    ensures !AllDigits(Field(s, 0, 4)) || !AllDigits(Field(s, 4, 2)) || !AllDigits(Field(s, 6, 2))
  {
    if |s| >= 8 {
      var i :| 0 <= i < 8 && !IsDigit(s[..8][i]);
      if i < 4 {
        assert s[0..4][i] == s[i];
      } else if i < 6 {
        assert s[4..6][i - 4] == s[i];
      } else {
        assert s[6..8][i - 6] == s[i];
      }
    } else {
      assert Field(s, 6, 2)[0] == '\0';
    }
  }

  /** get_num of two characters. */
  method GetField(s: string, i: nat) returns (r: int)
    ensures r == if i + 2 <= |s| && IsDigit(s[i]) && IsDigit(s[i + 1]) then Num2(s, i) else -1
  {
    r := GetNum(Field(s, i, 2));
    if i + 2 <= |s| {
      NumberIs2(s, i);
      assert s[i..i + 2] == [s[i], s[i + 1]];
    }
  }

  /** _gentime_to_ulong's day number. */
  method ReadDate(s: string) returns (val: int)
    ensures val == if |s| >= 8 && AllDigits(s[..8]) && Accepted(DateIn(s)) then DayCount(DateIn(s)) else -1
  {
    if |s| >= 8 && AllDigits(s[..8]) {
      DateFields(s);
    } else {
      DateFieldsNeeded(s);
    }
    var yr := GetNum(Field(s, 0, 4));
    yr := yr - 1970;
    if yr < 0 {
      return -1;
    }
    var mo := GetNum(Field(s, 4, 2));
    if mo < 1 || mo > 12 {
      return -1;
    }
    val := yr * 365 + MOS[mo - 1] + (yr + 2) / 4;
    if (yr + 70) % 4 == 0 && mo < 3 {
      val := val - 1;
    }
    var modays := MOS[mo] - MOS[mo - 1];
    var leap := !((yr + 70) % 4 > 0 || yr / 100 % 4 > 0);
    if mo == 2 && leap {
      modays := modays + 1;
    }
    var da := GetNum(Field(s, 6, 2));
    DayRead(yr, mo, da, leap, modays, val);
    if da < 1 || da > modays {
      return -1;
    }
    val := val + da - 1;
  }

  /** In the centuries from 1970 that count as the first of four, every fourth year is a
      leap year. */
  lemma LeapInFirst(yr: nat)
    ensures (yr + 70) % 4 == 0 && yr / 100 % 4 == 0 ==> IsLeap(1970 + yr)
  {
    var year, c := 1970 + yr, yr / 100;
    if (yr + 70) % 4 == 0 && c % 4 == 0 && year % 100 == 0 {
      var k := c / 4;
      assert c == 4 * k && 400 * k <= yr < 400 * k + 100;
      assert yr == 400 * k + 30;
      assert year == 400 * (k + 5);
    }
  }

  lemma DayRead(yr: nat, mo: nat, da: int, leap: bool, modays: nat, val: int)
    requires 1 <= mo <= 12 && leap == !((yr + 70) % 4 > 0 || yr / 100 % 4 > 0)
    requires modays == MOS[mo] - MOS[mo - 1] + if mo == 2 && leap then 1 else 0
    requires val == yr * 365 + MOS[mo - 1] + (yr + 2) / 4 - if (yr + 70) % 4 == 0 && mo < 3 then 1 else 0
    ensures da >= 0 ==>
              var d := Date(1970 + yr, mo, da);
              && (1 <= da <= modays <==> Accepted(d))
              && (1 <= da <= modays ==> DayCount(d) == val + da - 1)
  {
    LeapInFirst(yr);
    Mos(IsLeap(1970 + yr), mo);
    Mos((1970 + yr) % 4 == 0, mo);
  }

  function CharAt(s: string, i: nat): char {
    if i < |s| then s[i] else '\0'
  }

  /** The first character that is not a digit. */
  method SkipDigits(s: string) returns (b: nat)
    ensures b == Span(s)
  {
    b := 0;
    while b < |s| && IsDigit(s[b])
      invariant b <= |s| && forall i :: 0 <= i < b ==> IsDigit(s[i])
    {
      b := b + 1;
    }
    SpanIs(s, b);
  }

  /** _gentime_to_ulong's hours, minutes and seconds, added to a day number. */
  method ReadClock(s: string, b: nat, days: nat) returns (val: int)
    requires b == Span(s) && (b >= 12 || b == |s|)
    ensures val == if ClockOk(s, b) then days * 86400 + ClockOf(s, b) else -1
  {
    var hr := GetField(s, 8);
    if 8 >= |s| || hr > 23 || hr < 0 {
      return -1;
    }
    val := days * 24 + hr;
    var mi := GetField(s, 10);
    if 10 >= |s| || mi > 59 || mi < 0 {
      return -1;
    }
    var se := 0;
    if b > 12 {
      se := GetField(s, 12);
      if se > 59 || se < 0 {
        return -1;
      }
    }
    val := val * 3600 + mi * 60 + se;
  }

  /** The time zone in minutes; None if it is out of range. */
  method ReadZone(t: string) returns (xtra: Option<int>)
    requires |t| == 5 && (t[0] == '+' || t[0] == '-')
    ensures xtra == if ZoneOk(t) then Some(Zone(t)) else None
  {
    var hr := GetField(t, 1);
    var mi := GetField(t, 3);
    assert AllDigits(t[1..]) <==> IsDigit(t[1]) && IsDigit(t[2]) && IsDigit(t[3]) && IsDigit(t[4]) by {
      assert t[1..] == [t[1], t[2], t[3], t[4]];
    }
    if hr > 23 || hr < 0 || mi > 59 || mi < 0 {
      return None;
    }
    var ahead := hr * 60 + mi;
    if t[0] == '-' {
      ahead := -ahead;
    }
    if ahead > 14 * 60 || ahead < -12 * 60 {
      return None;
    }
    return Some(ahead);
  }

  /** _gentime_to_ulong. */
  method GentimeToUlong(s: string) returns (r: Option<int>)
    ensures r == TimeOf(s)
  {
    var b := SkipDigits(s);
    var c := CharAt(s, b);
    if b < |s| && (|| b < 12 || (c != 'Z' && c != '+' && c != '-')
                   || (c == 'Z' && |s| != b + 1) || (c < '0' && |s| != b + 5)) {
      NoSuffix(s, b);
      return None;
    }
    assert b >= 8 ==> AllDigits(s[..8]);
    var val := ReadDate(s);
    if val < 0 {
      return None;
    }
    val := ReadClock(s, b, val);
    if val < 0 {
      return None;
    }
    if c == '+' || c == '-' {
      var xtra := ReadZone(s[b..]);
      if xtra.None? {
        return None;
      }
      val := val - 60 * xtra.value;
    }
    if val < 0 {
      return None;
    }
    return Some(val);
  }

  lemma NoSuffix(s: string, b: nat)
    requires b == Span(s) && b < |s|
    requires var c := s[b];
             || b < 12 || (c != 'Z' && c != '+' && c != '-')
             || (c == 'Z' && |s| != b + 1) || (c < '0' && |s| != b + 5)
    ensures TimeOf(s) == None
  {
    assert s[b..][0] == s[b];
  }

  /** read_casn_time on a UTCTime: the century comes from the first digit. */
  method ReadUtcTime(s: string) returns (r: Option<int>)
    ensures r == if s == "" || |s| > 29 then None else TimeOf(Century(s) + s)
  {
    if s == "" {
      return None;
    }
    if |s| + 2 + 1 > 32 {
      return None;
    }
    r := GentimeToUlong(Century(s) + s);
  }

  function Century(s: string): string
    requires s != ""
  {
    if s[0] >= '5' then "19" else "20"
  }

  // ----- the round trip -----

  lemma ShowsBehind(c: string, s: string, i: nat, v: nat)
    requires |c| == 2 && Shows(s, i, v) && v < 100
    ensures Shows(c + s, i + 2, v) && IsDigit((c + s)[i + 2]) && IsDigit((c + s)[i + 3]) && Num2(c + s, i + 2) == v
  {
  }

  lemma YearReads(s: string, yy: nat)
    requires 70 <= yy < 150 && |s| == 13 && Shows(s, 0, yy)
    ensures Num4(Century(s) + s, 0) == 1900 + yy
    ensures forall i :: 0 <= i < 4 ==> IsDigit((Century(s) + s)[i])
  {
    var t := Century(s) + s;
    assert t[0] == Century(s)[0] && t[1] == Century(s)[1] && t[2] == s[0] && t[3] == s[1];
  }

  lemma ClockAddsUp(time: nat)
    ensures time == time / 86400 * 86400 + time / 3600 % 24 * 3600 + time / 60 % 60 * 60 + time % 60
  {
    var minutes, hours := time / 60, time / 3600;
    assert hours == minutes / 60 && time / 86400 == hours / 24;
    assert time == minutes * 60 + time % 60;
    assert minutes == hours * 60 + minutes % 60;
    assert hours == hours / 24 * 24 + hours % 24;
  }

  lemma DateReads(s: string, d: Date)
    requires |s| == 13 && Shows(s, 2, d.month) && Shows(s, 4, d.day) && d.month < 100 && d.day < 100
    ensures var t := Century(s) + s;
            && Num2(t, 4) == d.month && Num2(t, 6) == d.day && forall i :: 4 <= i < 8 ==> IsDigit(t[i])
  {
    ShowsBehind(Century(s), s, 2, d.month);
    ShowsBehind(Century(s), s, 4, d.day);
  }

  lemma ClockReads(s: string, hr: nat, mi: nat, se: nat)
    requires |s| == 13 && Shows(s, 6, hr) && Shows(s, 8, mi) && Shows(s, 10, se) && hr < 100 && mi < 100 && se < 100
    ensures var t := Century(s) + s;
            && Num2(t, 8) == hr && Num2(t, 10) == mi && Num2(t, 12) == se && forall i :: 8 <= i < 14 ==> IsDigit(t[i])
  {
    ShowsBehind(Century(s), s, 6, hr);
    ShowsBehind(Century(s), s, 8, mi);
    ShowsBehind(Century(s), s, 10, se);
  }

  lemma TextFields(s: string, d: Date, time: nat)
    requires Valid(d) && d.year < 2050 && IsText(s, d, time)
    ensures var t := Century(s) + s;
            && Span(t) == 14 && t[14..] == "Z" && DateIn(t) == d
            && Num2(t, 8) == time / 3600 % 24 && Num2(t, 10) == time / 60 % 60 && Num2(t, 12) == time % 60
  {
    var t := Century(s) + s;
    YearReads(s, d.year - 1900);
    DateReads(s, d);
    ClockReads(s, time / 3600 % 24, time / 60 % 60, time % 60);
    assert t[14] == 'Z';
    SpanIs(t, 14);
  }

  lemma FieldsRead(t: string, d: Date, hr: nat, mi: nat, se: nat)
    requires Span(t) == 14 && t[14..] == "Z" && DateIn(t) == d && Accepted(d)
    requires Num2(t, 8) == hr < 24 && Num2(t, 10) == mi < 60 && Num2(t, 12) == se < 60
    ensures TimeOf(t) == Some(DayCount(d) * 86400 + hr * 3600 + mi * 60 + se)
  {
  }

  lemma DayOfText(d: Date)
    requires Valid(d) && d.year < 2050
    ensures Accepted(d) && DayCount(d) == DayNumber(d)
  {
    CountsUpTo2100(d);
  }

  /** The text of a time is read as that time. */
  lemma TextReads(s: string, d: Date, time: nat)
    requires Valid(d) && d.year < 2050 && DayNumber(d) == time / 86400 && IsText(s, d, time)
    ensures TimeOf(Century(s) + s) == Some(time)
  {
    var hr, mi, se := time / 3600 % 24, time / 60 % 60, time % 60;
    assert time == DayNumber(d) * 86400 + hr * 3600 + mi * 60 + se by {
      ClockAddsUp(time);
    }
    TextFields(s, d, time);
    DayOfText(d);
    FieldsRead(Century(s) + s, d, hr, mi, se);
  }

  /** read_casn_time after write_casn_time. */
  method RoundTrip(time: nat) returns (r: Option<int>)
    ensures r == if time < LIMIT then Some(time) else None
  {
    var to := new char[20](_ => '\0');
    var lth, date := WriteUtcTime(to, time);
    if lth < 0 {
      return None;
    }
    TextReads(to[..13], date, time);
    r := ReadUtcTime(to[..lth]);
  }
}
