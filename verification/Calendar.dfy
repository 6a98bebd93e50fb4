/** Day numbers and dates (`civil_from_days` in src/inbox.rs) against the proleptic Gregorian calendar. */
module Calendar {
  import opened Common

  datatype Date = Date(year: int, month: int, day: int)

  // ---- The calendar, by its own rules ----

  predicate IsLeap(year: int) {
    year % 4 == 0 && (year % 100 != 0 || year % 400 == 0)
  }

  function DaysInMonth(year: int, month: int): (r: int) {
    if month == 2 then if IsLeap(year) then 29 else 28
    else if month == 4 || month == 6 || month == 9 || month == 11 then 30
    else 31
  }

  predicate IsValid(d: Date) {
    1 <= d.month <= 12 && 1 <= d.day <= DaysInMonth(d.year, d.month)
  }

  function NextDay(d: Date): (r: Date) {
    if d.day < DaysInMonth(d.year, d.month) then d.(day := d.day + 1)
    else if d.month < 12 then Date(d.year, d.month + 1, 1)
    else Date(d.year + 1, 1, 1)
  }

  predicate Before(a: Date, b: Date) {
    || a.year < b.year
    || (a.year == b.year && a.month < b.month)
    || (a.year == b.year && a.month == b.month && a.day < b.day)
  }

  /** Days from the first day of year 1 to the first day of `year`: one leap day every 4 years, less 100, plus 400. */
  function DaysBeforeYear(year: int): (r: int) {
    var y := year - 1;
    365 * y + y / 4 - y / 100 + y / 400
  }

  function DaysBeforeMonth(year: int, month: int): (r: int)
    requires 1 <= month <= 12
  {
    if month == 1 then 0 else DaysBeforeMonth(year, month - 1) + DaysInMonth(year, month - 1)
  }

  /** Days since 1970-01-01. */
  function DaysFromCivil(d: Date): (r: int)
    requires IsValid(d)
  {
    DaysBeforeYear(d.year) + DaysBeforeMonth(d.year, d.month) + d.day - 1 - DaysBeforeYear(1970)
  }

  // ---- The conversion as it is computed ----

  /** Rust's `/` on signed integers truncates toward zero. */
  function TruncDiv(a: int, b: int): (r: int)
    requires b > 0
  {
    if a >= 0 then a / b else -((-a) / b)
  }

  function Era(shifted: int): (r: int) {
    TruncDiv(if shifted >= 0 then shifted else shifted - 146_096, 146_097)
  }

  function YearOfEra(dayOfEra: int): (r: int) {
    (dayOfEra - dayOfEra / 1_460 + dayOfEra / 36_524 - dayOfEra / 146_096) / 365
  }

  function DayOfYear(dayOfEra: int, yearOfEra: int): (r: int) {
    dayOfEra - (365 * yearOfEra + yearOfEra / 4 - yearOfEra / 100)
  }

  /** Month and day of a day counted from 1 March; `next` is set when they fall in the following January or February. */
  function MonthAndDay(dayOfYear: int): (r: (int, int)) {
    var shiftedMonth := (5 * dayOfYear + 2) / 153;
    (if shiftedMonth < 10 then shiftedMonth + 3 else shiftedMonth - 9, dayOfYear - (153 * shiftedMonth + 2) / 5 + 1)
  }

  function DateInMarchYear(year: int, dayOfYear: int): (r: Date) {
    var (month, day) := MonthAndDay(dayOfYear);
    Date(if month <= 2 then year + 1 else year, month, day)
  }

  function DateInEra(era: int, dayOfEra: int): (r: Date) {
    var yearOfEra := YearOfEra(dayOfEra);
    DateInMarchYear(yearOfEra + era * 400, DayOfYear(dayOfEra, yearOfEra))
  }

  function CivilFromDays(days: int): (r: Date) {
    var shifted := days + 719_468;
    var era := Era(shifted);
    DateInEra(era, shifted - era * 146_097)
  }

  // ---- Years counted from March ----

  /** Days from 1 March of year 0 to 1 March of `year`. */
  function MarchStart(year: int): (r: int) {
    365 * year + year / 4 - year / 100 + year / 400
  }

  lemma MarchStartByEra(era: int, y: int)
    ensures MarchStart(400 * era + y) == 146_097 * era + MarchStart(y)
  {
    assert (400 * era + y) / 4 == 100 * era + y / 4;
    assert (400 * era + y) / 100 == 4 * era + y / 100;
    assert (400 * era + y) / 400 == era + y / 400;
  }

  lemma EraIsFloor(shifted: int)
    ensures Era(shifted) == shifted / 146_097
    ensures 0 <= shifted - Era(shifted) * 146_097 <= 146_096
  {
  }

  /** A day of an era is `c` centuries, `q` four-year cycles, `r` years and `d` days in. */
  lemma SplitDayOfEra(doe: int) returns (c: int, q: int, r: int, d: int)
    requires 0 <= doe <= 146_096
    ensures 0 <= c <= 3 && 0 <= q <= 24 && 0 <= r <= 3 && 0 <= d <= 365
    ensures doe == 36_524 * c + 1_461 * q + 365 * r + d
    ensures d == 365 ==> r == 3 && (q == 24 ==> c == 3)
  {
    c := if doe == 146_096 then 3 else doe / 36_524;
    var rest := doe - 36_524 * c;
    q := rest / 1_461;
    var rest2 := rest - 1_461 * q;
    r := if rest2 == 1_460 then 3 else rest2 / 365;
    d := rest2 - 365 * r;
  }

  lemma YearOfSplit(doe: int, c: int, q: int, r: int, d: int)
    requires 0 <= doe <= 146_096
    requires 0 <= c <= 3 && 0 <= q <= 24 && 0 <= r <= 3 && 0 <= d <= 365
    requires doe == 36_524 * c + 1_461 * q + 365 * r + d
    requires d == 365 ==> r == 3 && (q == 24 ==> c == 3)
    ensures YearOfEra(doe) == 100 * c + 4 * q + r
  {
    var x := 24 * c + q + 365 * r + d;
    var s := if x >= 1_460 then 1 else 0;
    var last := if doe == 146_096 then 1 else 0;
    Quotients(doe, 25 * c + q + s, x - 1_460 * s, c + last, doe - 36_524 * (c + last));
    assert doe / 146_096 == last;
    YearQuotient(doe - (25 * c + q + s) + c, 100 * c + 4 * q + r, d - s);
  }

  lemma Quotients(doe: int, fours: int, x: int, hundreds: int, y: int)
    requires doe == 1_460 * fours + x && 0 <= x < 1_460
    requires doe == 36_524 * hundreds + y && 0 <= y < 36_524
    ensures doe / 1_460 == fours && doe / 36_524 == hundreds
  {
  }

  lemma YearQuotient(days: int, y: int, d: int)
    requires days == 365 * y + d && 0 <= d < 365
    ensures days / 365 == y
  {
  }

  lemma MarchStartOfSplit(c: int, q: int, r: int)
    requires 0 <= c <= 3 && 0 <= q <= 24 && 0 <= r <= 3
    ensures var y := 100 * c + 4 * q + r;
            && y / 4 == 25 * c + q && y / 100 == c && y / 400 == 0
            && 365 * y + y / 4 - y / 100 == 36_524 * c + 1_461 * q + 365 * r
            && (IsLeap(y + 1) <==> r == 3 && (q == 24 ==> c == 3))
  {
    var y := 100 * c + 4 * q + r;
    assert y / 4 == 25 * c + q;
    assert y / 100 == c;
    assert y / 400 == 0;
    assert (y + 1) % 4 == 0 <==> r == 3;
    assert r == 3 ==> ((y + 1) % 100 == 0 <==> q == 24);
    assert r == 3 && q == 24 ==> ((y + 1) % 400 == 0 <==> c == 3);
  }

  /** The year and day of year are the ones the calendar assigns, leap centuries included. */
  /** Day `doe` of an era is day `d` of the year of the era that begins with March of year `y`. */
  predicate SplitsEra(doe: int, y: int, d: int) {
    0 <= y <= 399 && doe == MarchStart(y) + d && 0 <= d <= (if IsLeap(y + 1) then 365 else 364)
  }

  lemma EraYear(doe: int)
    requires 0 <= doe <= 146_096
    ensures SplitsEra(doe, YearOfEra(doe), DayOfYear(doe, YearOfEra(doe)))
  {
    var c, q, r, d := SplitDayOfEra(doe);
    YearOfSplit(doe, c, q, r, d);
    MarchStartOfSplit(c, q, r);
  }

  /** The 153-day formula assigns months and days as the month lengths do, counting from March. */
  lemma MonthFormula(year: int, d: int)
    requires 0 <= d <= (if IsLeap(year + 1) then 365 else 364)
    ensures var (m, k) := MonthAndDay(d); var y := if m <= 2 then year + 1 else year;
            && IsValid(Date(y, m, k))
            && DaysBeforeMonth(y, m) + k - 1 == if m <= 2 then d - 306 else d + DaysBeforeMonth(y, 3)
  {
    var m := (5 * d + 2) / 153;
    assert 0 <= m <= 11;
    MonthTable(year);
    MonthTable(year + 1);
  }

  lemma MonthTable(y: int)
    ensures var f := if IsLeap(y) then 1 else 0;
            && DaysBeforeMonth(y, 1) == 0 && DaysBeforeMonth(y, 2) == 31 && DaysBeforeMonth(y, 3) == 59 + f
            && DaysBeforeMonth(y, 4) == 90 + f && DaysBeforeMonth(y, 5) == 120 + f && DaysBeforeMonth(y, 6) == 151 + f
            && DaysBeforeMonth(y, 7) == 181 + f && DaysBeforeMonth(y, 8) == 212 + f && DaysBeforeMonth(y, 9) == 243 + f
            && DaysBeforeMonth(y, 10) == 273 + f && DaysBeforeMonth(y, 11) == 304 + f && DaysBeforeMonth(y, 12) == 334 + f
  {
    assert DaysBeforeMonth(y, 2) == 31;
    assert DaysBeforeMonth(y, 3) == DaysBeforeMonth(y, 2) + DaysInMonth(y, 2);
    assert DaysBeforeMonth(y, 4) == DaysBeforeMonth(y, 3) + 31;
    assert DaysBeforeMonth(y, 5) == DaysBeforeMonth(y, 4) + 30;
    assert DaysBeforeMonth(y, 6) == DaysBeforeMonth(y, 5) + 31;
    assert DaysBeforeMonth(y, 7) == DaysBeforeMonth(y, 6) + 30;
    assert DaysBeforeMonth(y, 8) == DaysBeforeMonth(y, 7) + 31;
    assert DaysBeforeMonth(y, 9) == DaysBeforeMonth(y, 8) + 31;
    assert DaysBeforeMonth(y, 10) == DaysBeforeMonth(y, 9) + 30;
    assert DaysBeforeMonth(y, 11) == DaysBeforeMonth(y, 10) + 31;
    assert DaysBeforeMonth(y, 12) == DaysBeforeMonth(y, 11) + 30;
  }

  /** Each year is 365 days, 366 when leap. */
  lemma YearLength(y: int)
    ensures DaysBeforeYear(y + 1) == DaysBeforeYear(y) + if IsLeap(y) then 366 else 365
  {
    StepOfQuotient(y, 4);
    StepOfQuotient(y, 100);
    StepOfQuotient(y, 400);
    MultiplesNest(y);
  }

  lemma StepOfQuotient(y: int, k: int)
    requires k == 4 || k == 100 || k == 400
    ensures y / k == (y - 1) / k + if y % k == 0 then 1 else 0
  {
  }

  lemma MultiplesNest(y: int)
    ensures y % 400 == 0 ==> y % 100 == 0
    ensures y % 100 == 0 ==> y % 4 == 0
  {
    if y % 400 == 0 { RemainderByHundred(4 * (y / 400), 0); }
    if y % 100 == 0 { RemainderByFour(25 * (y / 100), 0); }
  }

  lemma RemainderByFour(q: int, r: int)
    requires 0 <= r < 4
    ensures (4 * q + r) % 4 == r
  {
  }

  lemma RemainderByHundred(q: int, r: int)
    requires 0 <= r < 100
    ensures (100 * q + r) % 100 == r
  {
  }

  lemma RemainderByFourHundred(q: int, r: int)
    requires 0 <= r < 400
    ensures (400 * q + r) % 400 == r
  {
  }

  lemma LeapByEra(era: int, y: int)
    ensures IsLeap(400 * era + y) == IsLeap(y)
  {
    RemainderByFour(100 * era + y / 4, y % 4);
    RemainderByHundred(4 * era + y / 100, y % 100);
    RemainderByFourHundred(era + y / 400, y % 400);
  }

  // ---- Main results ----

  lemma MarchYearIsExact(year: int, d: int)
    requires 0 <= d <= (if IsLeap(year + 1) then 365 else 364)
    ensures IsValid(DateInMarchYear(year, d))
    ensures DaysFromCivil(DateInMarchYear(year, d)) == MarchStart(year) + d - 719_468
  {
    MonthFormula(year, d);
    YearLength(year);
    MonthTable(year);
    assert DaysBeforeYear(year + 1) == MarchStart(year);
    assert DaysBeforeYear(1970) == 719_162;
  }

  lemma MarchYearOfEra(era: int, y: int, d: int, start: int, year: int)
    requires start == MarchStart(y) && year == y + era * 400
    requires 0 <= d <= (if IsLeap(y + 1) then 365 else 364)
    ensures 0 <= d <= (if IsLeap(year + 1) then 365 else 364)
    ensures MarchStart(year) == 146_097 * era + start
  {
    MarchStartByEra(era, y);
    LeapByEra(era, y + 1);
    assert year == 400 * era + y && year + 1 == 400 * era + (y + 1);
  }

  /** The date is one of the calendar, on that day. */
  predicate FallsOn(d: Date, days: int) {
    IsValid(d) && DaysFromCivil(d) == days
  }

  lemma DateOfEraYear(era: int, doe: int, y: int, d: int)
    requires SplitsEra(doe, y, d)
    ensures FallsOn(DateInMarchYear(y + era * 400, d), 146_097 * era + doe - 719_468)
  {
    MarchYearOfEra(era, y, d, doe - d, y + era * 400);
    MarchYearIsExact(y + era * 400, d);
  }

  lemma DateInEraIsExact(era: int, doe: int)
    requires 0 <= doe <= 146_096
    ensures FallsOn(DateInEra(era, doe), 146_097 * era + doe - 719_468)
  {
    var y := YearOfEra(doe);
    EraYear(doe);
    DateOfEraYear(era, doe, y, DayOfYear(doe, y));
  }

  lemma CivilFallsOn(days: int, era: int, doe: int)
    requires era == Era(days + 719_468) && doe == days + 719_468 - era * 146_097 && 0 <= doe <= 146_096
    ensures FallsOn(CivilFromDays(days), days)
  {
    DateInEraIsExact(era, doe);
    assert 146_097 * era + doe - 719_468 == days;
  }

  /** Every day number is given a valid date, and that date's day number is the one it came from. */
  lemma CivilFromDaysIsExact(days: int)
    ensures IsValid(CivilFromDays(days))
    ensures DaysFromCivil(CivilFromDays(days)) == days
  {
    var era := Era(days + 719_468);
    var doe := days + 719_468 - era * 146_097;
    EraIsFloor(days + 719_468);
    CivilFallsOn(days, era, doe);
  }

  /** Day numbers of a year lie between its first day and the first day of the next. */
  lemma WithinYear(d: Date)
    requires IsValid(d)
    ensures DaysBeforeYear(d.year) <= DaysFromCivil(d) + DaysBeforeYear(1970) < DaysBeforeYear(d.year + 1)
  {
    MonthTable(d.year);
    YearLength(d.year);
  }

  lemma {:induction false} YearsIncrease(a: int, b: int)
    requires a <= b
    ensures DaysBeforeYear(a) <= DaysBeforeYear(b)
    decreases b - a
  {
    if a < b {
      YearLength(a);
      YearsIncrease(a + 1, b);
    }
  }

  /** Later dates have larger day numbers. */
  lemma DaysFromCivilIncreases(a: Date, b: Date)
    requires IsValid(a) && IsValid(b) && Before(a, b)
    ensures DaysFromCivil(a) < DaysFromCivil(b)
  {
    if a.year < b.year {
      WithinYear(a);
      WithinYear(b);
      YearsIncrease(a.year + 1, b.year);
    } else {
      MonthTable(a.year);
    }
  }

  /** The conversion is the inverse of the day count in the other direction too. */
  lemma DateRoundTrip(d: Date)
    requires IsValid(d)
    ensures CivilFromDays(DaysFromCivil(d)) == d
  {
    var e := CivilFromDays(DaysFromCivil(d));
    CivilFromDaysIsExact(DaysFromCivil(d));
    if e != d {
      if Before(e, d) { DaysFromCivilIncreases(e, d); } else { DaysFromCivilIncreases(d, e); }
    }
  }

  lemma NextDayIsOneMore(d: Date)
    requires IsValid(d)
    ensures IsValid(NextDay(d)) && DaysFromCivil(NextDay(d)) == DaysFromCivil(d) + 1
  {
    if d.day < DaysInMonth(d.year, d.month) {
      assert DaysFromCivil(NextDay(d)) == DaysFromCivil(d) + 1;
    } else if d.month < 12 {
      assert DaysBeforeMonth(d.year, d.month + 1) == DaysBeforeMonth(d.year, d.month) + DaysInMonth(d.year, d.month);
    } else {
      NewYear(d.year);
    }
  }

  lemma NewYear(y: int)
    ensures DaysFromCivil(Date(y + 1, 1, 1)) == DaysFromCivil(Date(y, 12, 31)) + 1
  {
    MonthTable(y);
    YearLength(y);
  }

  lemma Epoch()
    ensures CivilFromDays(0) == Date(1970, 1, 1)
  {
    assert DaysFromCivil(Date(1970, 1, 1)) == 0;
    DateRoundTrip(Date(1970, 1, 1));
  }

  lemma DateOfItsDay(d: Date, days: int)
    requires IsValid(d) && DaysFromCivil(d) == days
    ensures CivilFromDays(days) == d
  {
    DateRoundTrip(d);
  }

  lemma DayAfter(d: Date, days: int)
    requires IsValid(d) && DaysFromCivil(d) == days
    ensures CivilFromDays(days + 1) == NextDay(d)
  {
    NextDayIsOneMore(d);
    DateOfItsDay(NextDay(d), days + 1);
  }

  /** Day 0 is 1970-01-01, and one day later is always the calendar's next day. */
  lemma DaysFollowTheCalendar(days: int)
    ensures CivilFromDays(0) == Date(1970, 1, 1)
    ensures CivilFromDays(days + 1) == NextDay(CivilFromDays(days))
  {
    Epoch();
    var d := CivilFromDays(days);
    assert IsValid(d) && DaysFromCivil(d) == days by { CivilFromDaysIsExact(days); }
    DayAfter(d, days);
  }

  /** Day numbers order exactly as the dates do. */
  lemma DatesOrderAsDays(m: int, n: int)
    ensures m < n <==> Before(CivilFromDays(m), CivilFromDays(n))
  {
    CivilFromDaysIsExact(m);
    CivilFromDaysIsExact(n);
    var a, b := CivilFromDays(m), CivilFromDays(n);
    if Before(a, b) { DaysFromCivilIncreases(a, b); }
    if Before(b, a) { DaysFromCivilIncreases(b, a); }
  }

  /** Every value the machine computes on the way, for a day number reached from an `i64` count of seconds. */
  lemma NoOverflow(seconds: int)
    requires IsI64(seconds)
    ensures var shifted := seconds / 86_400 + 719_468; var era := Era(shifted); var doe := shifted - era * 146_097;
            && IsI64(seconds / 86_400) && IsI64(shifted) && IsI64(shifted - 146_096)
            && EraFits(era, YearOfEra(doe)) && YearStepsFit(doe)
  {
    var shifted := seconds / 86_400 + 719_468;
    var doe := shifted - Era(shifted) * 146_097;
    EraIsFloor(shifted);
    YearsFit(doe);
    ErasFit(shifted, Era(shifted), YearOfEra(doe));
  }

  /** The products and sums that put the year together. */
  predicate EraFits(era: int, y: int) {
    IsI64(era * 146_097) && IsI64(era * 400 + y + 1)
  }

  /** The unsigned steps within an era never go below zero, and leave a day and a month in range. */
  predicate YearStepsFit(doe: int) {
    var y := YearOfEra(doe);
    var d := DayOfYear(doe, y);
    && 0 <= doe && 0 <= doe - doe / 1_460 && 0 <= y <= 399 && 365 * y + y / 4 - y / 100 <= doe && MonthStepsFit(d)
  }

  predicate MonthStepsFit(d: int) {
    0 <= d <= 365 && (153 * ((5 * d + 2) / 153) + 2) / 5 <= d && 0 <= (5 * d + 2) / 153 <= 11
  }

  lemma ErasFit(shifted: int, era: int, y: int)
    requires -200_000_000_000_000 <= shifted <= 200_000_000_000_000
    requires 0 <= shifted - era * 146_097 <= 146_096 && 0 <= y <= 399
    ensures EraFits(era, y)
  {
  }

  lemma YearsFit(doe: int)
    requires 0 <= doe <= 146_096
    ensures YearStepsFit(doe)
  {
    var y := YearOfEra(doe);
    var d := DayOfYear(doe, y);
    EraYear(doe);
    StepsOfSplit(doe, y, d);
    MonthsFit(d);
  }

  lemma StepsOfSplit(doe: int, y: int, d: int)
    requires SplitsEra(doe, y, d)
    ensures 0 <= d <= 365 && 365 * y + y / 4 - y / 100 <= doe
  {
  }

  lemma MonthsFit(d: int)
    requires 0 <= d <= 365
    ensures MonthStepsFit(d)
  {
  }
}
