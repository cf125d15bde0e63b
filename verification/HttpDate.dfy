/**
Reading HTTP dates, browser/src/cache.rs: the IMF-fixdate format of section
5.6.7 of RFC 9110, and the closed-form day count behind it.
*/
module HttpDate {
  import opened Wrappers
  import opened Decimal
  import opened Basics

  datatype Stamp = Stamp(year: nat, month: nat, day: nat, hour: nat, minute: nat, second: nat)

  /** What the reader accepts: day 31 in every month, and second 60. */
  predicate InRange(s: Stamp) {
    && s.year <= 9999 && 1 <= s.month <= 12 && 1 <= s.day <= 31
    && s.hour <= 23 && s.minute <= 59 && s.second <= 60
  }

  const DAY_NAMES := ["Mon", "Tue", "Wed", "Thu", "Fri", "Sat", "Sun"]
  const MONTH_NAMES := ["Jan", "Feb", "Mar", "Apr", "May", "Jun", "Jul", "Aug", "Sep", "Oct", "Nov", "Dec"]

  // --- text -----------------------------------------------------------------

  function Digits(text: string): Option<nat> {
    if AllDigits(text) then Some(ParseDigits(text)) else None
  }

  /** The month a name stands for, counted from 1. */
  function MonthOf(name: string, from: nat := 0): (month: Option<nat>)
    requires from <= |MONTH_NAMES|
    ensures month.Some? ==> from < month.value <= |MONTH_NAMES| && MONTH_NAMES[month.value - 1] == name
    ensures month.None? ==> forall k :: from <= k < |MONTH_NAMES| ==> MONTH_NAMES[k] != name
    decreases |MONTH_NAMES| - from
  {
    if from == |MONTH_NAMES| then None
    else if MONTH_NAMES[from] == name then Some(from + 1)
    else MonthOf(name, from + 1)
  }

  /** What the reader makes of a header: no date, a date and its second on the Unix clock, or a slice that begins
      or ends inside a character, at which the program stops. */
  datatype Reading = Refused | Stamped(stamp: Stamp, seconds: int) | Stops

  /** The number in a stretch of bytes, which may also fall inside characters. */
  ghost function DigitsAt(text: string, from: nat, to: nat): Option<nat>
    requires from <= to <= |Encode(text)|
  {
    if IsBoundary(text, from) && IsBoundary(text, to) then Digits(Bytewise(Encode(text))[from..to]) else None
  }

  /** The reader's checks on a trimmed text, up to the calendar arithmetic. */
  ghost function ReadText(text: string): (reading: Reading)
    ensures reading.Stamped? ==> reading.seconds == Seconds(reading.stamp)
  {
    var t := Bytewise(Encode(text));
    if |t| != 29 || t[3..5] != ", " || t[25..] != " GMT" then Refused
    else if !IsBoundary(text, 3) then Stops
    else if t[..3] !in DAY_NAMES || DigitsAt(text, 5, 7).None? then Refused
    else if !IsBoundary(text, 8) || !IsBoundary(text, 11) then Stops
    else ReadFields(text)
  }

  ghost function ReadFields(text: string): (reading: Reading)
    requires |Encode(text)| == 29
    ensures reading.Stamped? ==> reading.seconds == Seconds(reading.stamp)
  {
    var t := Bytewise(Encode(text));
    match (DigitsAt(text, 5, 7), MonthOf(t[8..11]), DigitsAt(text, 12, 16),
           DigitsAt(text, 17, 19), DigitsAt(text, 20, 22), DigitsAt(text, 23, 25))
    case (Some(day), Some(month), Some(year), Some(hour), Some(minute), Some(second)) =>
      if t[7] != ' ' || t[11] != ' ' || t[16] != ' ' || t[19] != ':' || t[22] != ':' then Refused
      else if !(1 <= day <= 31) || hour > 23 || minute > 59 || second > 60 then Refused
      else
        var s := Stamp(year, month, day, hour, minute, second);
        Stamped(s, Seconds(s))
    case _ => Refused
  }

  /** The reader. A header may be any bytes. */
  ghost function ReadDate(header: seq<Byte>): Reading {
    var text := FromUtf8(header);
    if text.None? then Refused else ReadText(Trim(text.value))
  }

  // --- the calendar -----------------------------------------------------------

  /** Days since 1970-01-01 by eras of 400 years that begin in March. */
  function CivilDays(year: nat, month: nat, day: nat): int {
    var shifted := if month <= 2 then year - 1 else year;
    var era := shifted / 400;
    var yearOfEra := shifted - era * 400;
    var monthIndex := (month + 9) % 12;
    var dayOfYear := (153 * monthIndex + 2) / 5 + day - 1;
    var dayOfEra := yearOfEra * 365 + yearOfEra / 4 - yearOfEra / 100 + dayOfYear;
    era * 146_097 + dayOfEra - 719_468
  }

  function Seconds(s: Stamp): int {
    CivilDays(s.year, s.month, s.day) * 86_400 + s.hour * 3_600 + s.minute * 60 + s.second
  }

  predicate IsLeap(year: nat) {
    year % 4 == 0 && (year % 100 != 0 || year % 400 == 0)
  }

  function DaysInMonth(year: nat, month: nat): (days: nat)
    ensures 28 <= days <= 31
  {
    if month == 2 then (if IsLeap(year) then 29 else 28)
    else if month in {4, 6, 9, 11} then 30
    else 31
  }

  predicate Exists(s: Stamp) {
    InRange(s) && s.day <= DaysInMonth(s.year, s.month)
  }

  /** The Gregorian calendar counted out, years and months one at a time. */
  function DaysBeforeYear(year: nat): nat {
    if year == 0 then 0 else DaysBeforeYear(year - 1) + if IsLeap(year - 1) then 366 else 365
  }

  function DaysBeforeMonth(year: nat, month: nat): nat {
    if month <= 1 then 0 else DaysBeforeMonth(year, month - 1) + DaysInMonth(year, month - 1)
  }

  function DayNumber(year: nat, month: nat, day: nat): int {
    DaysBeforeYear(year) + DaysBeforeMonth(year, month) + day - 1
  }

  function NextDay(year: nat, month: nat, day: nat): (nat, nat, nat) {
    if day < DaysInMonth(year, month) then (year, month, day + 1)
    else if month < 12 then (year, month + 1, 1)
    else (year + 1, 1, 1)
  }

  /** The count really goes day by day: tomorrow is one more, across months and years. */
  lemma TomorrowIsOneMore(year: nat, month: nat, day: nat)
    requires 1 <= month <= 12 && 1 <= day <= DaysInMonth(year, month)
    ensures var (y, m, d) := NextDay(year, month, day);
            DayNumber(y, m, d) == DayNumber(year, month, day) + 1
  {
    MonthTable(year);
  }

  lemma MonthTable(year: nat)
    ensures var leap := if IsLeap(year) then 1 else 0;
            && DaysBeforeMonth(year, 1) == 0 && DaysBeforeMonth(year, 2) == 31
            && DaysBeforeMonth(year, 3) == 59 + leap && DaysBeforeMonth(year, 4) == 90 + leap
            && DaysBeforeMonth(year, 5) == 120 + leap && DaysBeforeMonth(year, 6) == 151 + leap
            && DaysBeforeMonth(year, 7) == 181 + leap && DaysBeforeMonth(year, 8) == 212 + leap
            && DaysBeforeMonth(year, 9) == 243 + leap && DaysBeforeMonth(year, 10) == 273 + leap
            && DaysBeforeMonth(year, 11) == 304 + leap && DaysBeforeMonth(year, 12) == 334 + leap
  {
    assert DaysBeforeMonth(year, 3) == DaysBeforeMonth(year, 2) + DaysInMonth(year, 2);
    assert DaysBeforeMonth(year, 5) == DaysBeforeMonth(year, 4) + DaysInMonth(year, 4);
    assert DaysBeforeMonth(year, 7) == DaysBeforeMonth(year, 6) + DaysInMonth(year, 6);
    assert DaysBeforeMonth(year, 9) == DaysBeforeMonth(year, 8) + DaysInMonth(year, 8);
    assert DaysBeforeMonth(year, 11) == DaysBeforeMonth(year, 10) + DaysInMonth(year, 10);
  }

  lemma {:induction false} LeapYears(year: nat)
    ensures DaysBeforeYear(year) == 365 * year + (year + 3) / 4 - (year + 99) / 100 + (year + 399) / 400
  {
    if year > 0 {
      LeapYears(year - 1);
      LeapStep(year - 1);
    }
  }

  lemma LeapStep(year: nat)
    ensures (year + 4) / 4 - (year + 100) / 100 + (year + 400) / 400
            == (year + 3) / 4 - (year + 99) / 100 + (year + 399) / 400 + if IsLeap(year) then 1 else 0
  {
    DivStep(year, 4);
    DivStep(year, 100);
    DivStep(year, 400);
    CenturiesDivide(year);
  }

  lemma CenturiesDivide(year: nat)
    ensures (year % 400 == 0 ==> year % 100 == 0) && (year % 100 == 0 ==> year % 4 == 0)
  {
    var centuries, cycles := year / 100, year / 400;
    if year % 400 == 0 {
      assert year == 100 * (4 * cycles);
    }
    if year % 100 == 0 {
      assert year == 4 * (25 * centuries);
    }
  }

  lemma DivStep(n: nat, k: nat)
    requires k in {4, 100, 400}
    ensures (n + k) / k == (n + k - 1) / k + if n % k == 0 then 1 else 0
  {
  }

  /** The era arithmetic counts the same leap years. */
  lemma EraYears(shifted: int)
    ensures var era := shifted / 400;
            var yearOfEra := shifted - era * 400;
            era * 146_097 + yearOfEra * 365 + yearOfEra / 4 - yearOfEra / 100
            == 365 * shifted + shifted / 4 - shifted / 100 + shifted / 400
  {
    var era := shifted / 400;
    var r := shifted - era * 400;
    assert shifted / 4 == 100 * era + r / 4;
    assert shifted / 100 == 4 * era + r / 100;
  }

  /** The number of days counted before 1970-01-01. */
  const EPOCH := 719_528

  lemma EpochIsDayZero(year: nat)
    requires year == 1970
    ensures DayNumber(year, 1, 1) == EPOCH
  {
    LeapYears(year);
    MonthTable(year);
  }

  /** Days from the start of March, by fifths of 153 days, are days from the start of the year. */
  lemma MonthsFromMarch(year: nat, month: nat)
    requires 1 <= month <= 12
    ensures (153 * ((month + 9) % 12) + 2) / 5 ==
            if month <= 2 then DaysBeforeMonth(year, month) + 306
            else DaysBeforeMonth(year, month) - 59 - if IsLeap(year) then 1 else 0
  {
    MonthTable(year);
  }

  lemma YearsToMarch(year: nat)
    ensures var leaps := (year + 3) / 4 - (year + 99) / 100 + (year + 399) / 400;
            && (year - 1) / 4 - (year - 1) / 100 + (year - 1) / 400 == leaps - 1
            && year / 4 - year / 100 + year / 400 == leaps - 1 + if IsLeap(year) then 1 else 0
  {
    LeapStep(year);
    DivShift(year, 4);
    DivShift(year, 100);
    DivShift(year, 400);
    DivShift(year - 1, 4);
    DivShift(year - 1, 100);
    DivShift(year - 1, 400);
  }

  lemma DivShift(n: int, k: nat)
    requires k in {4, 100, 400}
    ensures (n + k) / k == n / k + 1
  {
  }

  /** The closed form is the day-by-day count from 1970-01-01, for every month of every year, and for
      any day number: day 31 of a shorter month runs on into the next. */
  lemma ClosedFormCountsDays(year: nat, month: nat, day: nat)
    requires 1 <= month <= 12
    ensures CivilDays(year, month, day) == DayNumber(year, month, day) - EPOCH
  {
    LeapYears(year);
    MonthsFromMarch(year, month);
    YearsToMarch(year);
    EraYears(if month <= 2 then year - 1 else year);
  }

  // --- order ------------------------------------------------------------------

  /** Calendar order. */
  predicate Before(a: Stamp, b: Stamp) {
    if a.year != b.year then a.year < b.year
    else if a.month != b.month then a.month < b.month
    else if a.day != b.day then a.day < b.day
    else if a.hour != b.hour then a.hour < b.hour
    else if a.minute != b.minute then a.minute < b.minute
    else a.second < b.second
  }

  lemma {:induction false} LaterMonthsLater(year: nat, m: nat, n: nat)
    requires 1 <= m < n <= 13
    ensures DaysBeforeMonth(year, m) + DaysInMonth(year, m) <= DaysBeforeMonth(year, n)
  {
    if m + 1 < n {
      LaterMonthsLater(year, m, n - 1);
    }
  }

  lemma {:induction false} LaterYearsLater(y: nat, z: nat)
    requires y < z
    ensures DaysBeforeYear(y) + DaysBeforeMonth(y, 13) <= DaysBeforeYear(z)
  {
    if y + 1 < z {
      LaterYearsLater(y, z - 1);
    } else {
      MonthTable(y);
    }
  }

  predicate IsDay(s: Stamp) {
    1 <= s.month <= 12 && 1 <= s.day <= DaysInMonth(s.year, s.month)
  }

  lemma LaterDaysLater(a: Stamp, b: Stamp)
    requires IsDay(a) && IsDay(b) && Before(a, b)
    ensures (a.year, a.month, a.day) == (b.year, b.month, b.day) ||
            DayNumber(a.year, a.month, a.day) < DayNumber(b.year, b.month, b.day)
  {
    if a.year < b.year {
      LaterYearsLater(a.year, b.year);
      LaterMonthsLater(a.year, a.month, 13);
    } else if a.month < b.month {
      LaterMonthsLater(a.year, a.month, b.month);
    }
  }

  /** `b` is the first second of the minute after `a`'s. */
  predicate OpensNextMinute(a: Stamp, b: Stamp) {
    && b.second == 0
    && if a.minute < 59
        then (b.year, b.month, b.day, b.hour, b.minute) == (a.year, a.month, a.day, a.hour, a.minute + 1)
       else if a.hour < 23 then (b.year, b.month, b.day, b.hour, b.minute) == (a.year, a.month, a.day, a.hour + 1, 0)
       else (b.year, b.month, b.day) == NextDay(a.year, a.month, a.day) && b.hour == b.minute == 0
  }

  lemma TomorrowIsNextDay(a: Stamp, b: Stamp)
    requires IsDay(a) && IsDay(b)
    ensures DayNumber(b.year, b.month, b.day) == DayNumber(a.year, a.month, a.day) + 1
            <==> (b.year, b.month, b.day) == NextDay(a.year, a.month, a.day)
  {
    var (year, month, day) := NextDay(a.year, a.month, a.day);
    var next := Stamp(year, month, day, 0, 0, 0);
    TomorrowIsOneMore(a.year, a.month, a.day);
    var b0 := b.(hour := 0, minute := 0, second := 0);
    if Before(next, b0) {
      LaterDaysLater(next, b0);
    } else if Before(b0, next) {
      LaterDaysLater(b0, next);
    }
  }

  /** Dates that exist keep their order as seconds, but for a leap second, which shares its value with the
      first second of the minute after it and with no other. */
  lemma SecondsKeepOrder(a: Stamp, b: Stamp)
    requires Exists(a) && Exists(b) && Before(a, b)
    ensures Seconds(a) <= Seconds(b)
    ensures Seconds(a) == Seconds(b) <==> a.second == 60 && OpensNextMinute(a, b)
  {
    ClosedFormCountsDays(a.year, a.month, a.day);
    ClosedFormCountsDays(b.year, b.month, b.day);
    LaterDaysLater(a, b);
    TomorrowIsNextDay(a, b);
  }

  // --- the format ---------------------------------------------------------------

  /** An IMF-fixdate. */
  function Format(weekday: string, s: Stamp): (text: string)
    requires weekday in DAY_NAMES && InRange(s)
    ensures |text| == 29
  {
    FormatDay(weekday, s) + FormatTime(s)
  }

  function FormatDay(weekday: string, s: Stamp): (text: string)
    requires weekday in DAY_NAMES && InRange(s)
    ensures |text| == 17
  {
    var month := MONTH_NAMES[s.month - 1];
    [weekday[0], weekday[1], weekday[2], ',', ' ', Digit(s.day / 10), Digit(s.day), ' ',
     month[0], month[1], month[2], ' ',
     Digit(s.year / 1000), Digit(s.year / 100), Digit(s.year / 10), Digit(s.year), ' ']
  }

  function FormatTime(s: Stamp): (text: string)
    requires InRange(s)
    ensures |text| == 12
  {
    [Digit(s.hour / 10), Digit(s.hour), ':', Digit(s.minute / 10), Digit(s.minute), ':',
     Digit(s.second / 10), Digit(s.second), ' ', 'G', 'M', 'T']
  }

  lemma TwoDigits(a: char, b: char)
    ensures Digits([a, b]) == if IsDigit(a) && IsDigit(b) then Some(DigitValue(a) * 10 + DigitValue(b)) else None
  {
    if IsDigit(a) && IsDigit(b) {
      assert [a, b][..1] == [a] && [a][..0] == [];
      assert ParseDigits([a]) == DigitValue(a);
    } else {
      assert [a, b][0] == a && [a, b][1] == b;
    }
  }

  lemma FourDigits(a: char, b: char, c: char, d: char)
    ensures Digits([a, b, c, d]) ==
            if IsDigit(a) && IsDigit(b) && IsDigit(c) && IsDigit(d)
            then Some(((DigitValue(a) * 10 + DigitValue(b)) * 10 + DigitValue(c)) * 10 + DigitValue(d)) else None
  {
    var text := [a, b, c, d];
    if IsDigit(a) && IsDigit(b) && IsDigit(c) && IsDigit(d) {
      TwoDigits(a, b);
      assert text[..3] == [a, b, c] && text[..3][..2] == [a, b];
      assert ParseDigits([a, b]) == DigitValue(a) * 10 + DigitValue(b);
      assert ParseDigits([a, b, c]) == ParseDigits([a, b]) * 10 + DigitValue(c);
    } else {
      assert text[0] == a && text[1] == b && text[2] == c && text[3] == d;
    }
  }

  lemma NamesDiffer(j: nat, k: nat)
    requires j < k < |MONTH_NAMES|
    ensures MONTH_NAMES[j] != MONTH_NAMES[k]
  {
    var a, b := MONTH_NAMES[j], MONTH_NAMES[k];
    assert a[0] != b[0] || a[1] != b[1] || a[2] != b[2];
  }

  lemma {:induction false} MonthOfName(month: nat, from: nat)
    requires from < month <= |MONTH_NAMES|
    ensures MonthOf(MONTH_NAMES[month - 1], from) == Some(month)
    decreases month - from
  {
    if from < month - 1 {
      NamesDiffer(from, month - 1);
      MonthOfName(month, from + 1);
    }
  }

  /** The fields of a 29-character text, cut where the reader cuts them. */
  lemma Fields(t: string)
    requires |t| == 29
    ensures t[..3] == [t[0], t[1], t[2]] && t[3..5] == [t[3], t[4]] && t[5..7] == [t[5], t[6]]
    ensures t[8..11] == [t[8], t[9], t[10]] && t[12..16] == [t[12], t[13], t[14], t[15]]
    ensures t[17..19] == [t[17], t[18]] && t[20..22] == [t[20], t[21]] && t[23..25] == [t[23], t[24]]
    ensures t[25..] == [t[25], t[26], t[27], t[28]]
  {
  }

  /** Two decimal digits stand for a number below 100, and it for them. */
  lemma TwoDigitNumber(a: char, b: char, value: nat)
    requires value <= 99
    ensures Digits([a, b]) == Some(value) <==> a == Digit(value / 10) && b == Digit(value)
  {
    TwoDigits(a, b);
  }

  lemma LastDigit(rest: nat, digit: nat, value: nat)
    requires digit <= 9
    ensures value == rest * 10 + digit <==> rest == value / 10 && digit == value % 10
  {
  }

  lemma FourDigitNumber(a: char, b: char, c: char, d: char, value: nat)
    requires value <= 9999
    ensures Digits([a, b, c, d]) == Some(value) <==>
            a == Digit(value / 1000) && b == Digit(value / 100) && c == Digit(value / 10) && d == Digit(value)
  {
    FourDigits(a, b, c, d);
    if IsDigit(a) && IsDigit(b) && IsDigit(c) && IsDigit(d) {
      var first, second, third := DigitValue(a), DigitValue(a) * 10 + DigitValue(b),
          (DigitValue(a) * 10 + DigitValue(b)) * 10 + DigitValue(c);
      LastDigit(third, DigitValue(d), value);
      LastDigit(second, DigitValue(c), value / 10);
      LastDigit(first, DigitValue(b), value / 100);
      Hundreds(value);
    }
  }

  lemma Hundreds(value: nat)
    requires value <= 9999
    ensures value / 100 == value / 10 / 10 && value / 1000 == value / 100 / 10 <= 9
  {
  }

  /** What the reader requires of the fields, to report `s`. */
  predicate FieldsShow(t: string, s: Stamp)
    requires |t| == 29
  {
    && Digits(t[5..7]) == Some(s.day) && t[7] == ' '
    && MonthOf(t[8..11]) == Some(s.month) && t[11] == ' '
    && Digits(t[12..16]) == Some(s.year) && t[16] == ' '
    && Digits(t[17..19]) == Some(s.hour) && t[19] == ':'
    && Digits(t[20..22]) == Some(s.minute) && t[22] == ':'
    && Digits(t[23..25]) == Some(s.second)
  }

  predicate Spells(t: string, s: Stamp)
    requires |t| == 29
  {
    t[..3] in DAY_NAMES && t[3..5] == ", " && FieldsShow(t, s) && t[25..] == " GMT"
  }

  /** A stretch of digits never falls inside characters. */
  lemma DigitsStandAlone(text: string, from: nat, to: nat)
    requires from < to <= |Encode(text)|
    ensures DigitsAt(text, from, to) == Digits(Bytewise(Encode(text))[from..to])
  {
    var bytes := Encode(text);
    var digits := Bytewise(bytes)[from..to];
    if AllDigits(digits) {
      assert IsDigit(digits[0]) && IsDigit(digits[to - from - 1]);
      AsciiStandsAlone(text, from);
      AsciiStandsAlone(text, to - 1);
    }
  }

  lemma FieldsStandAlone(text: string)
    requires |Encode(text)| == 29
    ensures var t := Bytewise(Encode(text));
            && DigitsAt(text, 5, 7) == Digits(t[5..7]) && DigitsAt(text, 12, 16) == Digits(t[12..16])
            && DigitsAt(text, 17, 19) == Digits(t[17..19]) && DigitsAt(text, 20, 22) == Digits(t[20..22])
            && DigitsAt(text, 23, 25) == Digits(t[23..25])
  {
    DigitsStandAlone(text, 5, 7);
    DigitsStandAlone(text, 12, 16);
    DigitsStandAlone(text, 17, 19);
    DigitsStandAlone(text, 20, 22);
    DigitsStandAlone(text, 23, 25);
  }

  /** What the reader looks at before it slices a month out of the bytes. */
  predicate ReachesTheMonth(t: string) {
    |t| == 29 && t[3..5] == ", " && t[25..] == " GMT" && t[..3] in DAY_NAMES && IsDigit(t[5]) && IsDigit(t[6])
  }

  /** Right up to the month, and split there. */
  ghost predicate SplitsTheMonth(text: string) {
    var bytes := Encode(text);
    ReachesTheMonth(Bytewise(bytes)) && (IsContinuation(bytes[8]) || IsContinuation(bytes[11]))
  }

  /** The program stops exactly at a date that is right up to the month, where byte 8 or byte 11 goes on with a
      character. */
  lemma TextStopsExactly(text: string)
    ensures ReadText(text) == Stops <==> SplitsTheMonth(text)
  {
    var bytes := Encode(text);
    var t := Bytewise(bytes);
    if |t| == 29 && t[3..5] == ", " {
      assert t[3..5][0] == t[3];
      FieldsStandAlone(text);
      BoundariesShow(text, 3);
      BoundariesShow(text, 8);
      BoundariesShow(text, 11);
      Fields(t);
      TwoDigits(t[5], t[6]);
    }
  }

  lemma HeaderIsItsText(header: seq<Byte>)
    ensures forall text :: Encode(text) == header <==> FromUtf8(header) == Some(text)
  {
    forall text | Encode(text) == header
      ensures FromUtf8(header) == Some(text)
    {
      if FromUtf8(header).Some? {
        EncodingIsUnique(FromUtf8(header).value, text);
      }
    }
  }

  /** Of all headers, the program stops exactly at those that hold such a date within any surrounding space. */
  lemma StopsExactly(header: seq<Byte>)
    ensures ReadDate(header) == Stops <==> exists text :: Encode(text) == header && SplitsTheMonth(Trim(text))
  {
    HeaderIsItsText(header);
    if FromUtf8(header).Some? {
      var text := FromUtf8(header).value;
      TextStopsExactly(Trim(text));
      assert Encode(text) == header;
    }
  }

  lemma ReachesByParts(before: string, month: string, after: string)
    requires |before| == 7 && |month| == 2 && |after| == 20
    requires before[..3] in DAY_NAMES && before[3..5] == ", " && IsDigit(before[5]) && IsDigit(before[6])
             && after[16..] == " GMT"
    ensures ReachesTheMonth(before + month + after)
  {
    var t := before + month + after;
    assert t[..3] == before[..3] && t[3..5] == before[3..5] && t[25..] == after[16..];
  }

  lemma EAcute()
    ensures Encode("\U{E9}") == [0xC3, 0xA9]
  {
    assert "\U{E9}"[..0] == "" && Utf8('\U{E9}') == [0xC3, 0xA9];
  }

  lemma SplitBytes(before: string, after: string)
    requires IsAscii(before) && IsAscii(after) && |before| == 7 && |after| == 20
    ensures var bytes := Encode(before + "\U{E9}" + after);
            |bytes| == 29 && bytes[8] == 0xA9 && Bytewise(bytes) == before + Bytewise([0xC3, 0xA9]) + after
  {
    EncodeJoins(before + "\U{E9}", after);
    EncodeJoins(before, "\U{E9}");
    EAcute();
    AsciiIsBytewise(before);
    AsciiIsBytewise(after);
    assert |Encode(before)| == |Bytewise(Encode(before))| && |Encode(after)| == |Bytewise(Encode(after))|;
    assert Bytewise(Encode(before) + [0xC3, 0xA9] + Encode(after))
        == Bytewise(Encode(before)) + Bytewise([0xC3, 0xA9]) + Bytewise(Encode(after));
  }

  /** `Sun, 06éov 1994 08:49:37 GMT` */
  lemma SplitMonthStops()
    ensures ReadDate(Encode("Sun, 06" + "\U{E9}" + "ov 1994 08:49:37 GMT")) == Stops
  {
    var before, after := "Sun, 06", "ov 1994 08:49:37 GMT";
    var text := before + "\U{E9}" + after;
    SplitBytes(before, after);
    NothingToTrim(before, "\U{E9}", after);
    assert before[..3] == DAY_NAMES[6] && after[16..] == " GMT";
    ReachesByParts(before, Bytewise([0xC3, 0xA9]), after);
    TextStopsExactly(text);
    HeaderIsItsText(Encode(text));
  }

  lemma NothingToTrim(before: string, middle: string, after: string)
    requires before != "" && after != "" && !IsWhitespace(before[0]) && !IsWhitespace(after[|after| - 1])
    ensures Trim(before + middle + after) == before + middle + after
  {
  }

  lemma FieldsSpell(text: string, s: Stamp)
    requires |Encode(text)| == 29
    ensures var t := Bytewise(Encode(text));
            ReadFields(text) == Stamped(s, Seconds(s)) <==> InRange(s) && FieldsShow(t, s)
  {
    FieldsStandAlone(text);
    var t := Bytewise(Encode(text));
    Fields(t);
    FourDigits(t[12], t[13], t[14], t[15]);
  }

  lemma ReaderSpells(text: string, s: Stamp)
    ensures var t := Bytewise(Encode(text));
            ReadText(text) == Stamped(s, Seconds(s)) <==> |t| == 29 && InRange(s) && Spells(t, s)
  {
    var t := Bytewise(Encode(text));
    if |t| == 29 {
      Fields(t);
      TwoDigits(t[5], t[6]);
      FieldsStandAlone(text);
      FieldsSpell(text, s);
      if InRange(s) && Spells(t, s) {
        AsciiMonth(s.month, t[8..11]);
        BoundariesShow(text, 3);
        BoundariesShow(text, 8);
        BoundariesShow(text, 11);
      }
    }
  }

  lemma AsciiMonth(month: nat, name: string)
    requires 1 <= month <= 12 && name == MONTH_NAMES[month - 1]
    ensures |name| == 3 && name[0] < '\U{80}'
  {
  }

  /** The same, character by character. */
  predicate Shows(t: string, s: Stamp)
    requires |t| == 29 && InRange(s)
  {
    var month := MONTH_NAMES[s.month - 1];
    && t[3] == ',' && t[4] == ' '
    && t[5] == Digit(s.day / 10) && t[6] == Digit(s.day) && t[7] == ' '
    && t[8] == month[0] && t[9] == month[1] && t[10] == month[2] && t[11] == ' '
    && t[12] == Digit(s.year / 1000) && t[13] == Digit(s.year / 100) && t[14] == Digit(s.year / 10)
    && t[15] == Digit(s.year)
    && t[16] == ' ' && t[17] == Digit(s.hour / 10) && t[18] == Digit(s.hour) && t[19] == ':'
    && t[20] == Digit(s.minute / 10) && t[21] == Digit(s.minute) && t[22] == ':'
    && t[23] == Digit(s.second / 10) && t[24] == Digit(s.second)
    && t[25] == ' ' && t[26] == 'G' && t[27] == 'M' && t[28] == 'T'
  }

  lemma SpellsAsShown(t: string, s: Stamp)
    requires |t| == 29 && InRange(s)
    ensures Spells(t, s) <==> t[..3] in DAY_NAMES && Shows(t, s)
  {
    Fields(t);
    TwoDigitNumber(t[5], t[6], s.day);
    TwoDigitNumber(t[17], t[18], s.hour);
    TwoDigitNumber(t[20], t[21], s.minute);
    TwoDigitNumber(t[23], t[24], s.second);
    FourDigitNumber(t[12], t[13], t[14], t[15], s.year);
    MonthOfName(s.month, 0);
    assert MonthOf(t[8..11]) == Some(s.month) <==> t[8..11] == MONTH_NAMES[s.month - 1];
  }

  lemma SpellsTheFormat(t: string, s: Stamp)
    requires |t| == 29 && InRange(s)
    ensures Spells(t, s) <==> t[..3] in DAY_NAMES && t == Format(t[..3], s)
  {
    SpellsAsShown(t, s);
    if t[..3] in DAY_NAMES {
      FormatShows(t[..3], s);
      if Shows(t, s) {
        ShownOnce(t, Format(t[..3], s), s);
      }
    }
  }

  lemma FormatShows(weekday: string, s: Stamp)
    requires |weekday| == 3 && weekday in DAY_NAMES && InRange(s)
    ensures var f := Format(weekday, s); f[0] == weekday[0] && f[1] == weekday[1] && f[2] == weekday[2] && Shows(f, s)
  {
  }

  lemma ShownOnce(t: string, f: string, s: Stamp)
    requires |t| == |f| == 29 && InRange(s) && Shows(t, s) && Shows(f, s)
    requires t[0] == f[0] && t[1] == f[1] && t[2] == f[2]
    ensures t == f
  {
    SameText(t, f);
  }

  lemma SameText(t: string, f: string)
    requires |t| == |f| == 29
    ensures t == f <==>
            && t[0] == f[0] && t[1] == f[1] && t[2] == f[2] && t[3] == f[3] && t[4] == f[4] && t[5] == f[5]
            && t[6] == f[6] && t[7] == f[7] && t[8] == f[8] && t[9] == f[9] && t[10] == f[10] && t[11] == f[11]
            && t[12] == f[12] && t[13] == f[13] && t[14] == f[14] && t[15] == f[15] && t[16] == f[16]
            && t[17] == f[17] && t[18] == f[18] && t[19] == f[19] && t[20] == f[20] && t[21] == f[21]
            && t[22] == f[22] && t[23] == f[23] && t[24] == f[24] && t[25] == f[25] && t[26] == f[26]
            && t[27] == f[27] && t[28] == f[28]
  {
  }

  lemma FormatIsAscii(weekday: string, s: Stamp)
    requires weekday in DAY_NAMES && InRange(s)
    ensures IsAscii(Format(weekday, s)) && Format(weekday, s)[..3] == weekday
  {
    DayIsAscii(weekday, s);
    assert IsAscii(FormatTime(s));
    assert Format(weekday, s)[..3] == FormatDay(weekday, s)[..3];
  }

  lemma DayIsAscii(weekday: string, s: Stamp)
    requires weekday in DAY_NAMES && InRange(s)
    ensures IsAscii(FormatDay(weekday, s)) && FormatDay(weekday, s)[..3] == weekday
  {
    assert IsAscii(weekday) && IsAscii(MONTH_NAMES[s.month - 1]);
  }

  lemma TextReadsExactly(text: string, s: Stamp)
    requires InRange(s)
    ensures ReadText(text) == Stamped(s, Seconds(s)) <==>
              exists weekday :: weekday in DAY_NAMES && text == Format(weekday, s)
  {
    var t := Bytewise(Encode(text));
    ReaderSpells(text, s);
    if |t| == 29 {
      SpellsTheFormat(t, s);
      if Spells(t, s) {
        FormatIsAscii(t[..3], s);
        OnlyItselfLooksAscii(text, Format(t[..3], s));
      }
    }
    if weekday :| weekday in DAY_NAMES && text == Format(weekday, s) {
      FormatIsAscii(weekday, s);
      AsciiIsBytewise(text);
    }
  }

  /** An IMF-fixdate with these fields. */
  ghost predicate IsFixdate(text: string, s: Stamp) {
    InRange(s) && exists weekday :: weekday in DAY_NAMES && text == Format(weekday, s)
  }

  /** Of all headers, exactly those are read that are, inside any surrounding space, an IMF-fixdate, and then
      as the fields it shows and their second on the Unix clock. */
  lemma ReadsExactlyTheFormat(header: seq<Byte>, s: Stamp, n: int)
    ensures ReadDate(header) == Stamped(s, n) <==>
              n == Seconds(s) && exists text :: Encode(text) == header && IsFixdate(Trim(text), s)
  {
    HeaderIsItsText(header);
    if FromUtf8(header).Some? {
      var text := FromUtf8(header).value;
      assert Encode(text) == header;
      ReaderSpells(Trim(text), s);
      if InRange(s) {
        TextReadsExactly(Trim(text), s);
      }
    }
  }

  // --- the Unix clock -----------------------------------------------------------

  const EPOCH_STAMP := Stamp(1970, 1, 1, 0, 0, 0)

  /** A second of the calendar, other than a leap second, in any year. */
  predicate IsTime(s: Stamp) {
    IsDay(s) && s.hour <= 23 && s.minute <= 59 && s.second <= 59
  }

  /** The second after it. */
  function NextSecond(s: Stamp): Stamp {
    if s.second < 59 then s.(second := s.second + 1)
    else if s.minute < 59 then s.(minute := s.minute + 1, second := 0)
    else if s.hour < 23 then s.(hour := s.hour + 1, minute := 0, second := 0)
    else
      var (year, month, day) := NextDay(s.year, s.month, s.day);
      Stamp(year, month, day, 0, 0, 0)
  }

  lemma EpochIsSecondZero()
    ensures IsTime(EPOCH_STAMP) && Seconds(EPOCH_STAMP) == 0
  {
    ClosedFormCountsDays(1970, 1, 1);
    EpochIsDayZero(1970);
  }

  lemma TomorrowIsADay(year: nat, month: nat, day: nat)
    requires 1 <= month <= 12 && 1 <= day <= DaysInMonth(year, month)
    ensures var (y, m, d) := NextDay(year, month, day);
            1 <= m <= 12 && 1 <= d <= DaysInMonth(y, m) && CivilDays(y, m, d) == CivilDays(year, month, day) + 1
  {
    var (y, m, d) := NextDay(year, month, day);
    TomorrowIsOneMore(year, month, day);
    ClosedFormCountsDays(year, month, day);
    ClosedFormCountsDays(y, m, d);
  }

  /** The next second of the calendar is one more, through minutes, hours, days, months and years. */
  lemma NextSecondIsOneMore(s: Stamp)
    requires IsTime(s)
    ensures IsTime(NextSecond(s)) && Seconds(NextSecond(s)) == Seconds(s) + 1
  {
    if s.second == 59 && s.minute == 59 && s.hour == 23 {
      TomorrowIsADay(s.year, s.month, s.day);
    }
  }

  /** The calendar so many seconds after 1970 began. */
  function After(seconds: nat): Stamp {
    if seconds == 0 then EPOCH_STAMP else NextSecond(After(seconds - 1))
  }

  /** The Unix clock counts those seconds. */
  lemma {:induction false} ClockCounts(seconds: nat)
    ensures IsTime(After(seconds)) && Seconds(After(seconds)) == seconds
  {
    if seconds == 0 {
      EpochIsSecondZero();
    } else {
      ClockCounts(seconds - 1);
      NextSecondIsOneMore(After(seconds - 1));
    }
  }

  /** The date of the n-th second after 1970 began is read as n, as long as years have four digits. */
  lemma ReadsTheUnixClock(seconds: nat, weekday: string)
    requires weekday in DAY_NAMES && After(seconds).year <= 9999
    ensures InRange(After(seconds))
    ensures ReadDate(Encode(Format(weekday, After(seconds)))) == Stamped(After(seconds), seconds)
  {
    ClockCounts(seconds);
    FormatIsRead(weekday, After(seconds));
  }

  lemma FormatIsRead(weekday: string, s: Stamp)
    requires weekday in DAY_NAMES && InRange(s)
    ensures ReadDate(Encode(Format(weekday, s))) == Stamped(s, Seconds(s))
  {
    var text := Format(weekday, s);
    FormatStandsAlone(weekday, s);
    assert IsFixdate(Trim(text), s);
    ReadsExactlyTheFormat(Encode(text), s, Seconds(s));
  }

  lemma FormatStandsAlone(weekday: string, s: Stamp)
    requires weekday in DAY_NAMES && InRange(s)
    ensures Trim(Format(weekday, s)) == Format(weekday, s)
  {
    var text := Format(weekday, s);
    assert !IsWhitespace(weekday[0]) && text[0] == weekday[0] && text[28] == 'T';
  }

  /** The months by name. */
  lemma MonthsByName()
    ensures MonthOf("Jan") == Some(1) && MonthOf("Feb") == Some(2) && MonthOf("Mar") == Some(3)
    ensures MonthOf("Apr") == Some(4) && MonthOf("May") == Some(5) && MonthOf("Jun") == Some(6)
    ensures MonthOf("Jul") == Some(7) && MonthOf("Aug") == Some(8) && MonthOf("Sep") == Some(9)
    ensures MonthOf("Oct") == Some(10) && MonthOf("Nov") == Some(11) && MonthOf("Dec") == Some(12)
  {
    forall month | 1 <= month <= 12
      ensures MonthOf(MONTH_NAMES[month - 1]) == Some(month)
    {
      MonthOfName(month, 0);
    }
  }

  lemma ExampleIsShown()
    ensures "Sun, 06 Nov 1994 08:49:37 GMT" == Format("Sun", Stamp(1994, 11, 6, 8, 49, 37))
  {
    assert DAY_NAMES[6] == "Sun";
    SameText("Sun, 06 Nov 1994 08:49:37 GMT", Format("Sun", Stamp(1994, 11, 6, 8, 49, 37)));
  }

  /** `Sun, 06 Nov 1994 08:49:37 GMT` is read as 784111777. */
  lemma ExampleIsRead()
    ensures ReadDate(Encode("Sun, 06 Nov 1994 08:49:37 GMT")) == Stamped(Stamp(1994, 11, 6, 8, 49, 37), 784_111_777)
  {
    assert DAY_NAMES[6] == "Sun";
    assert Seconds(Stamp(1994, 11, 6, 8, 49, 37)) == 784_111_777;
    ExampleIsShown();
    FormatIsRead("Sun", Stamp(1994, 11, 6, 8, 49, 37));
  }
}
