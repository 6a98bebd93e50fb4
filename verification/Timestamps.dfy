/** Times as notes print them (`utc_parts`, `rfc3339_utc` and the time in a file name, src/inbox.rs). */
module Timestamps {
  import opened Common
  import opened Calendar
  import Lexicographic

  // ---- Numbers in decimal ----

  function DigitChar(d: int): (c: char)
    requires 0 <= d <= 9
  {
    ('0' as int + d) as char
  }

  function DigitValue(c: char): (r: int) {
    c as int - '0' as int
  }

  predicate IsDigit(c: char) {
    '0' <= c <= '9'
  }

  function Decimal(n: nat): (s: string)
    ensures s != [] && forall i | 0 <= i < |s| :: IsDigit(s[i])
  {
    if n < 10 then [DigitChar(n)] else Decimal(n / 10) + [DigitChar(n % 10)]
  }

  function Zeros(n: nat): (s: string)
    ensures |s| == n && forall i | 0 <= i < |s| :: s[i] == '0'
  {
    if n == 0 then "" else "0" + Zeros(n - 1)
  }

  function PadLeft(s: string, width: int): (r: string) {
    if |s| < width then Zeros(width - |s|) + s else s
  }

  /** `{:0width}` of a signed integer: the sign comes first and counts toward the width. */
  function Padded(n: int, width: int): (r: string) {
    if n < 0 then "-" + PadLeft(Decimal(-n), width - 1) else PadLeft(Decimal(n), width)
  }

  function Pow10(n: nat): (r: nat) {
    if n == 0 then 1 else 10 * Pow10(n - 1)
  }

  /** The last `width` decimal digits of `n`. */
  function Fixed(n: nat, width: nat): (s: string)
    ensures |s| == width && forall i | 0 <= i < |s| :: IsDigit(s[i])
  {
    if width == 0 then "" else Fixed(n / 10, width - 1) + [DigitChar(n % 10)]
  }

  lemma {:induction false} ZeroFixed(width: nat)
    ensures Fixed(0, width) == Zeros(width)
  {
    if width > 0 {
      ZeroFixed(width - 1);
      assert Fixed(0, width) == Zeros(width - 1) + "0";
      assert Zeros(width) == Zeros(width - 1) + "0";
    }
  }

  lemma PadLeftSnoc(s: string, c: char, width: nat)
    requires width > 0
    ensures PadLeft(s + [c], width) == PadLeft(s, width - 1) + [c]
  {
  }

  /** A number that fits is printed as exactly its digits, zeros in front. */
  lemma {:induction false} PaddedIsFixed(n: nat, width: nat)
    requires n < Pow10(width) && width > 0
    ensures Padded(n, width) == Fixed(n, width)
  {
    if n < 10 {
      PaddedDigit(n, width);
    } else {
      PaddedIsFixed(n / 10, width - 1);
      PadLeftSnoc(Decimal(n / 10), DigitChar(n % 10), width);
    }
  }

  lemma PaddedDigit(n: nat, width: nat)
    requires n < 10 && width > 0
    ensures Padded(n, width) == Fixed(n, width)
  {
    var last := [DigitChar(n)];
    ZeroFixed(width - 1);
    assert Fixed(n, width) == Zeros(width - 1) + last;
    assert PadLeft(last, width) == Zeros(width - 1) + last;
  }

  function ValueOf(s: string): (r: int) {
    if s == [] then 0 else 10 * ValueOf(s[..|s| - 1]) + DigitValue(s[|s| - 1])
  }

  lemma {:induction false} FixedValue(n: nat, width: nat)
    requires n < Pow10(width)
    ensures ValueOf(Fixed(n, width)) == n
  {
    if width > 0 {
      FixedValue(n / 10, width - 1);
      var s := Fixed(n, width);
      assert s[..|s| - 1] == Fixed(n / 10, width - 1);
    }
  }

  lemma {:induction false} FixedOrder(a: nat, b: nat, width: nat)
    requires a < Pow10(width) && b < Pow10(width)
    ensures Lexicographic.Less(Fixed(a, width), Fixed(b, width)) <==> a < b
    ensures Fixed(a, width) == Fixed(b, width) <==> a == b
  {
    FixedValue(a, width);
    FixedValue(b, width);
    if width > 0 {
      FixedOrder(a / 10, b / 10, width - 1);
      Lexicographic.Concatenation(Fixed(a / 10, width - 1), [DigitChar(a % 10)], Fixed(b / 10, width - 1), [DigitChar(b % 10)]);
    }
  }

  // ---- Times ----

  datatype Utc = Utc(date: Date, hour: int, minute: int, second: int)

  function UtcParts(seconds: int): (r: Utc) {
    var time := seconds % 86_400;
    Utc(CivilFromDays(seconds / 86_400), time / 3_600, (time / 60) % 60, time % 60)
  }

  /** `rfc3339_utc`. */
  function Rfc3339(seconds: int): (r: string) {
    var t := UtcParts(seconds);
    Padded(t.date.year, 4) + ("-" + (Padded(t.date.month, 2) + ("-" + (Padded(t.date.day, 2) +
      ("T" + (Padded(t.hour, 2) + (":" + (Padded(t.minute, 2) + (":" + (Padded(t.second, 2) + "Z"))))))))))
  }

  /** The time at the start of a note's file name. */
  function FileTime(seconds: int): (r: string) {
    var t := UtcParts(seconds);
    Padded(t.date.year, 4) + ("-" + (Padded(t.date.month, 2) + ("-" + (Padded(t.date.day, 2) +
      ("-" + (Padded(t.hour, 2) + (Padded(t.minute, 2) + Padded(t.second, 2))))))))
  }

  /** From 0000-01-01T00:00:00Z to 9999-12-31T23:59:59Z, the years RFC 3339 has a notation for. */
  predicate HasFourDigitYear(seconds: int) {
    -62_167_219_200 <= seconds <= 253_402_300_799
  }

  /** These are the seconds whose year has four digits. */
  lemma FourDigitYears(seconds: int)
    ensures HasFourDigitYear(seconds) <==> 0 <= UtcParts(seconds).date.year <= 9_999
  {
    var days := seconds / 86_400;
    var d := CivilFromDays(days);
    assert IsValid(d) && DaysFromCivil(d) == days by { CivilFromDaysIsExact(days); }
    WithinYear(d);
    YearsAround(d.year, days);
  }

  lemma YearsAround(y: int, days: int)
    requires DaysBeforeYear(y) <= days + DaysBeforeYear(1970) < DaysBeforeYear(y + 1)
    ensures -719_528 <= days <= 2_932_896 <==> 0 <= y <= 9_999
  {
    if y < 0 {
      YearsIncrease(y + 1, 0);
    } else if y <= 9_999 {
      YearsIncrease(0, y);
      YearsIncrease(y + 1, 10_000);
    } else {
      YearsIncrease(10_000, y);
    }
  }

  lemma PartsInRange(seconds: int)
    ensures var t := UtcParts(seconds);
            && IsValid(t.date) && 1 <= t.date.day <= 31
            && 0 <= t.hour <= 23 && 0 <= t.minute <= 59 && 0 <= t.second <= 59
            && seconds == 86_400 * DaysFromCivil(t.date) + 3_600 * t.hour + 60 * t.minute + t.second
  {
    CivilFromDaysIsExact(seconds / 86_400);
    ClockParts(seconds % 86_400);
  }

  lemma ClockParts(time: int)
    requires 0 <= time < 86_400
    ensures 0 <= time / 3_600 <= 23 && 0 <= (time / 60) % 60 <= 59 && 0 <= time % 60 <= 59
    ensures time == 3_600 * (time / 3_600) + 60 * ((time / 60) % 60) + time % 60
  {
    assert time / 3_600 == (time / 60) / 60;
  }

  /** Order of the printed parts, most significant first. */
  predicate Earlier(a: Utc, b: Utc) {
    || Before(a.date, b.date)
    || (a.date == b.date && a.hour < b.hour)
    || (a.date == b.date && a.hour == b.hour && a.minute < b.minute)
    || (a.date == b.date && a.hour == b.hour && a.minute == b.minute && a.second < b.second)
  }

  lemma ClockReading(d: int, h: int, m: int, s: int, e: int, i: int, n: int, t: int)
    requires 0 <= h <= 23 && 0 <= m <= 59 && 0 <= s <= 59
    requires 0 <= i <= 23 && 0 <= n <= 59 && 0 <= t <= 59
    ensures 86_400 * d + 3_600 * h + 60 * m + s < 86_400 * e + 3_600 * i + 60 * n + t <==>
            d < e || (d == e && (h < i || (h == i && (m < n || (m == n && s < t)))))
  {
  }

  lemma DateOrder(a: Date, b: Date)
    requires IsValid(a) && IsValid(b)
    ensures DaysFromCivil(a) < DaysFromCivil(b) <==> Before(a, b)
    ensures DaysFromCivil(a) == DaysFromCivil(b) <==> a == b
  {
    if Before(a, b) { DaysFromCivilIncreases(a, b); }
    if Before(b, a) { DaysFromCivilIncreases(b, a); }
  }

  lemma PartsOrder(s: int, t: int)
    ensures s < t <==> Earlier(UtcParts(s), UtcParts(t))
  {
    PartsInRange(s);
    PartsInRange(t);
    var a, b := UtcParts(s), UtcParts(t);
    DateOrder(a.date, b.date);
    ClockReading(DaysFromCivil(a.date), a.hour, a.minute, a.second, DaysFromCivil(b.date), b.hour, b.minute, b.second);
  }

  /** A fixed-width field, a separator, and the rest: the field decides, then the rest. */
  lemma FieldOrder(a: int, b: int, width: nat, separator: string, x: string, y: string)
    requires 0 <= a < Pow10(width) && 0 <= b < Pow10(width) && width > 0
    ensures Lexicographic.Less(Padded(a, width) + (separator + x), Padded(b, width) + (separator + y))
            <==> a < b || (a == b && Lexicographic.Less(x, y))
  {
    PaddedIsFixed(a, width);
    PaddedIsFixed(b, width);
    FixedOrder(a, b, width);
    Lexicographic.Concatenation(Fixed(a, width), separator + x, Fixed(b, width), separator + y);
    Lexicographic.Concatenation(separator, x, separator, y);
    Lexicographic.Irreflexive(separator);
  }

  lemma Widths()
    ensures Pow10(2) == 100 && Pow10(4) == 10_000
  {
    assert Pow10(1) == 10;
    assert Pow10(3) == 1_000;
  }

  /** The clock part of a printed time. */
  function Clock(t: Utc, separator: string, end: string): (r: string) {
    Padded(t.hour, 2) + (separator + (Padded(t.minute, 2) + (separator + (Padded(t.second, 2) + end))))
  }

  lemma ClockOrder(a: Utc, b: Utc, separator: string, end: string)
    requires 0 <= a.hour < 100 && 0 <= a.minute < 100 && 0 <= a.second < 100
    requires 0 <= b.hour < 100 && 0 <= b.minute < 100 && 0 <= b.second < 100
    ensures Lexicographic.Less(Clock(a, separator, end), Clock(b, separator, end)) <==>
            || a.hour < b.hour
            || (a.hour == b.hour && a.minute < b.minute)
            || (a.hour == b.hour && a.minute == b.minute && a.second < b.second)
  {
    Widths();
    FieldOrder(a.hour, b.hour, 2, separator, Padded(a.minute, 2) + (separator + (Padded(a.second, 2) + end)),
               Padded(b.minute, 2) + (separator + (Padded(b.second, 2) + end)));
    FieldOrder(a.minute, b.minute, 2, separator, Padded(a.second, 2) + end, Padded(b.second, 2) + end);
    FieldOrder(a.second, b.second, 2, end, "", "");
    assert end + "" == end;
  }

  function Day(d: Date, separator: string, rest: string): (r: string) {
    Padded(d.year, 4) + ("-" + (Padded(d.month, 2) + ("-" + (Padded(d.day, 2) + (separator + rest)))))
  }

  lemma DayOrder(a: Date, b: Date, separator: string, x: string, y: string)
    requires IsValid(a) && IsValid(b) && 0 <= a.year <= 9_999 && 0 <= b.year <= 9_999
    ensures Lexicographic.Less(Day(a, separator, x), Day(b, separator, y)) <==> Before(a, b) || (a == b && Lexicographic.Less(x, y))
  {
    Widths();
    FieldOrder(a.year, b.year, 4, "-", Padded(a.month, 2) + ("-" + (Padded(a.day, 2) + (separator + x))),
               Padded(b.month, 2) + ("-" + (Padded(b.day, 2) + (separator + y))));
    FieldOrder(a.month, b.month, 2, "-", Padded(a.day, 2) + (separator + x), Padded(b.day, 2) + (separator + y));
    FieldOrder(a.day, b.day, 2, separator, x, y);
  }

  /** Timestamps sort as time does. */
  lemma Rfc3339Order(s: int, t: int)
    requires HasFourDigitYear(s) && HasFourDigitYear(t)
    ensures s < t <==> Lexicographic.Less(Rfc3339(s), Rfc3339(t))
  {
    FourDigitYears(s);
    FourDigitYears(t);
    PartsInRange(s);
    PartsInRange(t);
    PartsOrder(s, t);
    var a, b := UtcParts(s), UtcParts(t);
    assert Rfc3339(s) == Day(a.date, "T", Clock(a, ":", "Z")) && Rfc3339(t) == Day(b.date, "T", Clock(b, ":", "Z"));
    ClockOrder(a, b, ":", "Z");
    DayOrder(a.date, b.date, "T", Clock(a, ":", "Z"), Clock(b, ":", "Z"));
  }

  /** So do the times in file names. */
  lemma FileTimeOrder(s: int, t: int)
    requires HasFourDigitYear(s) && HasFourDigitYear(t)
    ensures s < t <==> Lexicographic.Less(FileTime(s), FileTime(t))
  {
    FourDigitYears(s);
    FourDigitYears(t);
    PartsInRange(s);
    PartsInRange(t);
    PartsOrder(s, t);
    var a, b := UtcParts(s), UtcParts(t);
    FileTimeParts(a);
    FileTimeParts(b);
    assert FileTime(s) == Day(a.date, "-", Clock(a, "", "")) && FileTime(t) == Day(b.date, "-", Clock(b, "", ""));
    ClockOrder(a, b, "", "");
    DayOrder(a.date, b.date, "-", Clock(a, "", ""), Clock(b, "", ""));
  }

  lemma FileTimeLength(s: int)
    requires HasFourDigitYear(s)
    ensures |FileTime(s)| == 17
  {
    FourDigitYears(s);
    PartsInRange(s);
    PrintedFields(UtcParts(s));
  }

  /** Hence whole file names sort by time, whatever follows the time, and times are not confused. */
  lemma FileNamesSortByTime(s: int, t: int, x: string, y: string)
    requires HasFourDigitYear(s) && HasFourDigitYear(t)
    ensures s < t ==> Lexicographic.Less(FileTime(s) + x, FileTime(t) + y)
    ensures FileTime(s) == FileTime(t) ==> s == t
  {
    FileTimeOrder(s, t);
    FileTimeOrder(t, s);
    FileTimeLength(s);
    FileTimeLength(t);
    Lexicographic.Concatenation(FileTime(s), x, FileTime(t), y);
    Lexicographic.Irreflexive(FileTime(s));
  }

  lemma FileTimeParts(t: Utc)
    ensures Clock(t, "", "") == Padded(t.hour, 2) + (Padded(t.minute, 2) + Padded(t.second, 2))
  {
    assert Padded(t.second, 2) + "" == Padded(t.second, 2);
    assert "" + Padded(t.second, 2) == Padded(t.second, 2);
    assert "" + (Padded(t.minute, 2) + Padded(t.second, 2)) == Padded(t.minute, 2) + Padded(t.second, 2);
  }

  // ---- Reading a timestamp back ----

  predicate AllDigits(s: string) {
    forall i | 0 <= i < |s| :: IsDigit(s[i])
  }

  /** `date-time` of RFC 3339, section 5.6, restricted to whole seconds in UTC. */
  function ParseRfc3339(s: string): (r: Option<int>) {
    if |s| != 20 || s[4] != '-' || s[7] != '-' || s[10] != 'T' || s[13] != ':' || s[16] != ':' || s[19] != 'Z' then None
    else ParseFields(s[0..4], s[5..7], s[8..10], s[11..13], s[14..16], s[17..19])
  }

  function ParseFields(y: string, mo: string, d: string, h: string, mi: string, s: string): (r: Option<int>) {
    if !(AllDigits(y) && AllDigits(mo) && AllDigits(d) && AllDigits(h) && AllDigits(mi) && AllDigits(s)) then None
    else
      var date := Date(ValueOf(y), ValueOf(mo), ValueOf(d));
      if !IsValid(date) || ValueOf(h) > 23 || ValueOf(mi) > 59 || ValueOf(s) > 59 then None
      else Some(86_400 * DaysFromCivil(date) + 3_600 * ValueOf(h) + 60 * ValueOf(mi) + ValueOf(s))
  }

  lemma Layout(y: string, mo: string, d: string, h: string, mi: string, s: string)
    requires |y| == 4 && |mo| == 2 && |d| == 2 && |h| == 2 && |mi| == 2 && |s| == 2
    ensures var text := y + ("-" + (mo + ("-" + (d + ("T" + (h + (":" + (mi + (":" + (s + "Z"))))))))));
            && |text| == 20
            && text[4] == '-' && text[7] == '-' && text[10] == 'T' && text[13] == ':' && text[16] == ':' && text[19] == 'Z'
            && text[0..4] == y && text[5..7] == mo && text[8..10] == d
            && text[11..13] == h && text[14..16] == mi && text[17..19] == s
  {
    var clock := h + (":" + (mi + (":" + (s + "Z"))));
    assert |clock| == 9 && clock[2] == ':' && clock[5] == ':' && clock[8] == 'Z';
    assert clock[0..2] == h && clock[3..5] == mi && clock[6..8] == s;
    var text := y + ("-" + (mo + ("-" + (d + ("T" + clock)))));
    assert text[11..] == clock;
    assert text[11..13] == clock[0..2] && text[14..16] == clock[3..5] && text[17..19] == clock[6..8];
    assert text[13] == clock[2] && text[16] == clock[5] && text[19] == clock[8];
  }

  lemma SplitsInto(text: string, y: string, mo: string, d: string, h: string, mi: string, s: string)
    requires |text| == 20
    requires text[4] == '-' && text[7] == '-' && text[10] == 'T' && text[13] == ':' && text[16] == ':' && text[19] == 'Z'
    requires text[0..4] == y && text[5..7] == mo && text[8..10] == d && text[11..13] == h && text[14..16] == mi && text[17..19] == s
    ensures ParseRfc3339(text) == ParseFields(y, mo, d, h, mi, s)
  {
  }

  lemma PrintedTimeSplits(y: string, mo: string, d: string, h: string, mi: string, s: string)
    requires |y| == 4 && |mo| == 2 && |d| == 2 && |h| == 2 && |mi| == 2 && |s| == 2
    ensures ParseRfc3339(y + ("-" + (mo + ("-" + (d + ("T" + (h + (":" + (mi + (":" + (s + "Z")))))))))))
            == ParseFields(y, mo, d, h, mi, s)
  {
    Layout(y, mo, d, h, mi, s);
    SplitsInto(y + ("-" + (mo + ("-" + (d + ("T" + (h + (":" + (mi + (":" + (s + "Z")))))))))), y, mo, d, h, mi, s);
  }

  /** The printed time reads back as the second it was printed from. */
  lemma Rfc3339RoundTrip(seconds: int)
    requires HasFourDigitYear(seconds)
    ensures ParseRfc3339(Rfc3339(seconds)) == Some(seconds)
  {
    FourDigitYears(seconds);
    PartsInRange(seconds);
    PartsRoundTrip(UtcParts(seconds), Rfc3339(seconds), seconds);
  }

  lemma PartsRoundTrip(t: Utc, text: string, seconds: int)
    requires IsValid(t.date) && 1 <= t.date.day <= 31 && 0 <= t.date.year <= 9_999
    requires 0 <= t.hour <= 23 && 0 <= t.minute <= 59 && 0 <= t.second <= 59
    requires text == Padded(t.date.year, 4) + ("-" + (Padded(t.date.month, 2) + ("-" + (Padded(t.date.day, 2) +
      ("T" + (Padded(t.hour, 2) + (":" + (Padded(t.minute, 2) + (":" + (Padded(t.second, 2) + "Z"))))))))))
    requires seconds == 86_400 * DaysFromCivil(t.date) + 3_600 * t.hour + 60 * t.minute + t.second
    ensures ParseRfc3339(text) == Some(seconds)
  {
    PrintedFields(t);
    FieldsOf(t);
    PrintedTimeSplits(Padded(t.date.year, 4), Padded(t.date.month, 2), Padded(t.date.day, 2),
                      Padded(t.hour, 2), Padded(t.minute, 2), Padded(t.second, 2));
  }

  lemma FieldsOf(t: Utc)
    requires IsField(t.date.year, 4) && IsField(t.date.month, 2) && IsField(t.date.day, 2)
    requires IsField(t.hour, 2) && IsField(t.minute, 2) && IsField(t.second, 2)
    requires IsValid(t.date) && t.hour <= 23 && t.minute <= 59 && t.second <= 59
    ensures ParseFields(Padded(t.date.year, 4), Padded(t.date.month, 2), Padded(t.date.day, 2),
                        Padded(t.hour, 2), Padded(t.minute, 2), Padded(t.second, 2))
            == Some(86_400 * DaysFromCivil(t.date) + 3_600 * t.hour + 60 * t.minute + t.second)
  {
    var y, mo, d := Padded(t.date.year, 4), Padded(t.date.month, 2), Padded(t.date.day, 2);
    assert Date(ValueOf(y), ValueOf(mo), ValueOf(d)) == t.date;
  }

  predicate IsField(n: int, width: nat) {
    |Padded(n, width)| == width && AllDigits(Padded(n, width)) && ValueOf(Padded(n, width)) == n
  }

  lemma PaddedField(n: int, width: nat)
    requires 0 <= n < Pow10(width) && width > 0
    ensures IsField(n, width)
  {
    PaddedIsFixed(n, width);
    FixedValue(n, width);
  }

  lemma PrintedFields(t: Utc)
    requires IsValid(t.date) && 1 <= t.date.day <= 31 && 0 <= t.date.year <= 9_999
    requires 0 <= t.hour <= 23 && 0 <= t.minute <= 59 && 0 <= t.second <= 59
    ensures IsField(t.date.year, 4) && IsField(t.date.month, 2) && IsField(t.date.day, 2)
    ensures IsField(t.hour, 2) && IsField(t.minute, 2) && IsField(t.second, 2)
  {
    Widths();
    PaddedField(t.date.year, 4);
    PaddedField(t.date.month, 2);
    PaddedField(t.date.day, 2);
    PaddedField(t.hour, 2);
    PaddedField(t.minute, 2);
    PaddedField(t.second, 2);
  }

  /** Digits are the fixed-width form of their value. */
  lemma {:induction false} DigitsAreFixed(s: string)
    requires AllDigits(s)
    ensures 0 <= ValueOf(s) < Pow10(|s|) && Fixed(ValueOf(s), |s|) == s
  {
    if s != "" {
      var before, last := s[..|s| - 1], s[|s| - 1];
      DigitsAreFixed(before);
      assert ValueOf(s) == 10 * ValueOf(before) + DigitValue(last);
      assert ValueOf(s) / 10 == ValueOf(before) && ValueOf(s) % 10 == DigitValue(last);
      assert DigitChar(DigitValue(last)) == last;
      assert s == before + [last];
    }
  }
}
