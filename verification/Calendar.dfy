/** Calendar arithmetic of the timestamp parser, against a day-by-day calendar. */
module Calendar {
  import opened Options

  datatype Date = Date(year: int, month: int, day: int)

  // ---------------------------------------------------------------- the calendar

  predicate IsLeap(year: int) {
    year % 4 == 0 && (year % 100 != 0 || year % 400 == 0)
  }

  function DaysInMonth(year: int, month: int): int {
    if month == 2 then (if IsLeap(year) then 29 else 28)
    else if month == 4 || month == 6 || month == 9 || month == 11 then 30
    else 31
  }

  predicate IsDate(d: Date) {
    1 <= d.month <= 12 && 1 <= d.day <= DaysInMonth(d.year, d.month)
  }

  function NextDate(d: Date): (n: Date)
    requires IsDate(d)
    ensures IsDate(n)
  {
    if d.day < DaysInMonth(d.year, d.month) then d.(day := d.day + 1)
    else if d.month < 12 then Date(d.year, d.month + 1, 1)
    else Date(d.year + 1, 1, 1)
  }

  function PreviousDate(d: Date): (p: Date)
    requires IsDate(d)
    ensures IsDate(p) && NextDate(p) == d
  {
    if d.day > 1 then d.(day := d.day - 1)
    else if d.month > 1 then Date(d.year, d.month - 1, DaysInMonth(d.year, d.month - 1))
    else Date(d.year - 1, 12, 31)
  }

  const Epoch: Date := Date(1970, 1, 1)

  /** The date `n` days after the epoch, counted one day at a time. */
  function DateOf(n: int): (d: Date)
    ensures IsDate(d)
    decreases if n < 0 then -n else n
  {
    if n == 0 then Epoch else if n > 0 then NextDate(DateOf(n - 1)) else PreviousDate(DateOf(n + 1))
  }

  // ---------------------------------------------------------------- the parser's day formula

  /** Days up to the start of the March-based year, from the start of year zero. */
  function YearDays(shiftedYear: int): int {
    var era := shiftedYear / 400;
    var yearOfEra := shiftedYear - era * 400;
    era * 146_097 + yearOfEra * 365 + yearOfEra / 4 - yearOfEra / 100
  }

  function DayOfYear(month: int, day: int): int {
    (153 * ((month + 9) % 12) + 2) / 5 + day - 1
  }

  function DaysFromCivil(year: int, month: int, day: int): int {
    var shiftedYear := if month <= 2 then year - 1 else year;
    YearDays(shiftedYear) + DayOfYear(month, day) - 719_468
  }

  /** A year has one day more exactly when it is a leap year. */
  lemma YearLength(year: int)
    ensures YearDays(year) == YearDays(year - 1) + if IsLeap(year) then 366 else 365
  {
    var era := (year - 1) / 400;
    var rest := year - 1 - era * 400;
    assert 0 <= rest < 400 && year == era * 400 + (rest + 1);
    LeapOfEra(era, rest + 1);
    DaysInEra(era, rest);
    if rest < 399 {
      DaysInEra(era, rest + 1);
      YearInEra(rest);
    } else {
      DaysInEra(era + 1, 0);
    }
    hide YearDays, IsLeap;
    assert IsLeap(400) by { FourHundredIsLeap(); }
  }

  lemma FourHundredIsLeap()
    ensures IsLeap(400)
  {
  }

  lemma DaysInEra(era: int, rest: int)
    requires 0 <= rest < 400
    ensures YearDays(era * 400 + rest) == era * 146_097 + rest * 365 + rest / 4 - rest / 100
  {
    SameEra(era, rest);
  }

  lemma YearInEra(rest: int)
    requires 0 <= rest < 399
    ensures var n := rest + 1;
            n * 365 + n / 4 - n / 100 == rest * 365 + rest / 4 - rest / 100 + if IsLeap(n) then 366 else 365
  {
    NextMultiple(rest, 4);
    NextMultiple(rest, 100);
  }

  lemma NextMultiple(rest: int, k: int)
    requires k == 4 || k == 100
    ensures (rest + 1) / k == rest / k + if (rest + 1) % k == 0 then 1 else 0
  {
  }

  lemma SameEra(era: int, rest: int)
    requires 0 <= rest < 400
    ensures (era * 400 + rest) / 400 == era
  {
  }

  lemma LeapOfEra(era: int, rest: int)
    ensures IsLeap(era * 400 + rest) <==> IsLeap(rest)
  {
    RestOfFour(100 * era, rest);
    RestOfHundred(4 * era, rest);
    RestOfFourHundred(era, rest);
  }

  lemma RestOfFour(q: int, rest: int)
    ensures (4 * q + rest) % 4 == rest % 4
  {
  }

  lemma RestOfHundred(q: int, rest: int)
    ensures (100 * q + rest) % 100 == rest % 100
  {
  }

  lemma RestOfFourHundred(q: int, rest: int)
    ensures (400 * q + rest) % 400 == rest % 400
  {
  }

  /** The days before a month in the year that starts in March. */
  function MonthOffset(month: int): int {
    if month == 3 then 0 else if month == 4 then 31 else if month == 5 then 61 else if month == 6 then 92
    else if month == 7 then 122 else if month == 8 then 153 else if month == 9 then 184 else if month == 10 then 214
    else if month == 11 then 245 else if month == 12 then 275 else if month == 1 then 306 else 337
  }

  lemma MonthFormula(month: int, day: int)
    requires 1 <= month <= 12
    ensures DayOfYear(month, day) == MonthOffset(month) + day - 1
  {
  }

  /** Between two valid neighbouring dates the formula grows by exactly one day. */
  lemma DayAfterDay(d: Date)
    requires IsDate(d)
    ensures var n := NextDate(d);
            DaysFromCivil(n.year, n.month, n.day) == DaysFromCivil(d.year, d.month, d.day) + 1
  {
    hide YearDays, DayOfYear, IsLeap;
    var n := NextDate(d);
    MonthFormula(d.month, d.day);
    MonthFormula(n.month, n.day);
    if d.month == 2 {
      YearLength(d.year);
    }
  }

  lemma EpochIsDayZero()
    ensures DaysFromCivil(1970, 1, 1) == 0
  {
  }

  /** The formula counts the days of the calendar, before and after the epoch. */
  lemma {:induction false} FormulaCountsDays(n: int)
    ensures var d := DateOf(n); DaysFromCivil(d.year, d.month, d.day) == n
    decreases if n < 0 then -n else n
  {
    hide DaysFromCivil;
    if n == 0 {
      EpochIsDayZero();
    } else if n > 0 {
      FormulaCountsDays(n - 1);
      DayAfterDay(DateOf(n - 1));
    } else {
      FormulaCountsDays(n + 1);
      DayAfterDay(PreviousDate(DateOf(n + 1)));
    }
  }

  /** The days before a month in a civil year. */
  function DaysBefore(year: int, month: int): int {
    var leap := if IsLeap(year) then 1 else 0;
    if month == 1 then 0 else if month == 2 then 31 else MonthOffset(month) + 59 + leap
  }

  function NewYear(year: int): int {
    DaysFromCivil(year, 1, 1)
  }

  lemma InYear(d: Date)
    requires IsDate(d)
    ensures DaysFromCivil(d.year, d.month, d.day) == NewYear(d.year) + DaysBefore(d.year, d.month) + d.day - 1
    ensures NewYear(d.year + 1) == NewYear(d.year) + if IsLeap(d.year) then 366 else 365
  {
    hide IsLeap;
    FromNewYear(d);
    NextNewYear(d.year);
  }

  lemma FromNewYear(d: Date)
    requires IsDate(d)
    ensures DaysFromCivil(d.year, d.month, d.day) == NewYear(d.year) + DaysBefore(d.year, d.month) + d.day - 1
  {
    MonthFormula(d.month, d.day);
    MonthFormula(1, 1);
    YearLength(d.year);
    hide YearDays, DayOfYear, IsLeap;
  }

  lemma NextNewYear(year: int)
    ensures NewYear(year + 1) == NewYear(year) + if IsLeap(year) then 366 else 365
  {
    MonthFormula(1, 1);
    YearLength(year);
    hide YearDays, DayOfYear, IsLeap;
  }

  lemma MonthsGrow(year: int, month: int, later: int)
    requires 1 <= month < later <= 12
    ensures DaysBefore(year, month) + DaysInMonth(year, month) <= DaysBefore(year, later)
  {
    hide IsLeap;
  }

  lemma {:induction false} YearsGrow(year: int, later: int)
    requires year < later
    ensures NewYear(year) + (if IsLeap(year) then 366 else 365) <= NewYear(later)
    decreases later - year
  {
    hide IsLeap, DaysFromCivil, NewYear;
    InYear(Date(later - 1, 1, 1));
    if year < later - 1 {
      YearsGrow(year, later - 1);
    }
  }

  lemma LastInYear(d: Date)
    requires IsDate(d)
    ensures DaysBefore(d.year, d.month) + d.day <= if IsLeap(d.year) then 366 else 365
  {
    hide IsLeap;
  }

  lemma Earlier(a: Date, b: Date)
    requires IsDate(a) && IsDate(b)
    requires a.year < b.year || (a.year == b.year && (a.month < b.month || (a.month == b.month && a.day < b.day)))
    ensures DaysFromCivil(a.year, a.month, a.day) < DaysFromCivil(b.year, b.month, b.day)
  {
    InYear(a);
    InYear(b);
    LastInYear(a);
    if a.year < b.year {
      YearsGrow(a.year, b.year);
      assert DaysBefore(b.year, b.month) >= 0;
    } else if a.month < b.month {
      MonthsGrow(a.year, a.month, b.month);
    }
    hide DaysFromCivil, NewYear, IsLeap, DaysBefore;
  }

  /** The formula and the day count are inverse to each other on all valid dates. */
  lemma FormulaFindsDate(d: Date)
    requires IsDate(d)
    ensures DateOf(DaysFromCivil(d.year, d.month, d.day)) == d
  {
    hide DaysFromCivil;
    var n := DaysFromCivil(d.year, d.month, d.day);
    var e := DateOf(n);
    FormulaCountsDays(n);
    if e.year < d.year || (e.year == d.year && (e.month < d.month || (e.month == d.month && e.day < d.day))) {
      Earlier(e, d);
    } else if e != d {
      Earlier(d, e);
    }
  }

  // ---------------------------------------------------------------- the parser

  predicate IsDigit(c: char) {
    '0' <= c <= '9'
  }

  function DigitValue(c: char): int {
    if IsDigit(c) then c as int - '0' as int else 0
  }

  function DigitsValue(s: string): int {
    if s == [] then 0 else DigitsValue(s[..|s| - 1]) * 10 + DigitValue(s[|s| - 1])
  }

  predicate AllDigits(s: string) {
    forall c :: c in s ==> IsDigit(c)
  }

  /** An integer as the platform parses it: an optional sign and at least one digit. */
  function ParseInt(s: string): Option<int> {
    var signed := s != [] && (s[0] == '+' || s[0] == '-');
    var digits := if signed then s[1..] else s;
    if digits == [] || !AllDigits(digits) then None
    else Some(if signed && s[0] == '-' then -DigitsValue(digits) else DigitsValue(digits))
  }

  function CountDigits(s: string): (n: nat)
    ensures n <= |s|
  {
    if s == [] || !IsDigit(s[0]) then 0 else 1 + CountDigits(s[1..])
  }

  /** Seconds east of UTC, from what follows the seconds and their fraction. */
  function ParseZone(rest: string): Option<int> {
    if rest == "Z" || rest == "z" then Some(0)
    else if |rest| == 6 && (rest[0] == '+' || rest[0] == '-') then
      var hours, minutes := ParseInt(rest[1..3]), ParseInt(rest[4..6]);
      if hours.None? || minutes.None? then None
      else Some((if rest[0] == '-' then -1 else 1) * (hours.value * 3600 + minutes.value * 60))
    else None
  }

  function SkipFraction(rest: string): string {
    if rest != [] && rest[0] == '.' then rest[1..][CountDigits(rest[1..])..] else rest
  }

  /** Unix seconds of a timestamp; only the date hyphens and the first time colon are checked as separators. */
  function ParseRfc3339(value: string): Option<int> {
    if |value| < 20 || value[4] != '-' || value[7] != '-' || value[13] != ':' then None
    else
      var year, month, day := ParseInt(value[0..4]), ParseInt(value[5..7]), ParseInt(value[8..10]);
      var hour, minute, second := ParseInt(value[11..13]), ParseInt(value[14..16]), ParseInt(value[17..19]);
      if year.None? || month.None? || day.None? || hour.None? || minute.None? || second.None? then None
      else
        var offset := ParseZone(SkipFraction(value[19..]));
        if offset.None? then None
        else
          Some(DaysFromCivil(year.value, month.value, day.value) * 86_400
               + hour.value * 3600 + minute.value * 60 + second.value - offset.value)
  }

  // ---------------------------------------------------------------- printing

  function Digit(n: int): char
    requires 0 <= n <= 9
  {
    ['0', '1', '2', '3', '4', '5', '6', '7', '8', '9'][n]
  }

  function Two(n: int): (s: string)
    requires 0 <= n <= 99
    ensures |s| == 2
  {
    [Digit(n / 10), Digit(n % 10)]
  }

  function Four(n: int): (s: string)
    requires 0 <= n <= 9999
    ensures |s| == 4
  {
    Two(n / 100) + Two(n % 100)
  }

  lemma SignIsNoDigit(digits: string)
    requires digits != [] && (digits[0] == '+' || digits[0] == '-')
    ensures !AllDigits(digits)
  {
    assert digits[0] in digits;
  }

  /** A number is a run of digits, perhaps after one sign. */
  lemma SignedParses(digits: string)
    ensures digits != [] && AllDigits(digits) ==>
              && ParseInt(digits) == Some(DigitsValue(digits)) && ParseInt(['+'] + digits) == Some(DigitsValue(digits))
              && ParseInt(['-'] + digits) == Some(-DigitsValue(digits))
    ensures digits == [] || !AllDigits(digits) ==> ParseInt(['+'] + digits).None? && ParseInt(['-'] + digits).None?
    ensures digits == [] || (!AllDigits(digits) && digits[0] != '+' && digits[0] != '-') ==> ParseInt(digits).None?
  {
    hide AllDigits, DigitsValue;
    assert (['+'] + digits)[1..] == digits && (['-'] + digits)[1..] == digits;
    if digits != [] && (digits[0] == '+' || digits[0] == '-') {
      SignIsNoDigit(digits);
    }
  }

  lemma DigitsPush(s: string, c: char)
    ensures DigitsValue(s + [c]) == DigitsValue(s) * 10 + DigitValue(c)
    ensures AllDigits(s + [c]) <==> AllDigits(s) && IsDigit(c)
  {
    assert (s + [c])[..|s|] == s;
  }

  lemma Unsigned(s: string)
    requires s != [] && AllDigits(s)
    ensures ParseInt(s) == Some(DigitsValue(s))
  {
    assert IsDigit(s[0]);
  }

  lemma DigitIsItsValue(n: int)
    requires 0 <= n <= 9
    ensures IsDigit(Digit(n)) && DigitValue(Digit(n)) == n
  {
  }

  lemma TwoParses(n: int)
    requires 0 <= n <= 99
    ensures AllDigits(Two(n)) && DigitsValue(Two(n)) == n
    ensures ParseInt(Two(n)) == Some(n)
  {
    var high, low := Digit(n / 10), Digit(n % 10);
    DigitIsItsValue(n / 10);
    DigitIsItsValue(n % 10);
    hide ParseInt, Digit, IsDigit, DigitValue;
    DigitsPush("", high);
    DigitsPush([high], low);
    assert "" + [high] == [high] && [high] + [low] == Two(n);
    Unsigned(Two(n));
  }

  lemma FourParses(n: int)
    requires 0 <= n <= 9999
    ensures ParseInt(Four(n)) == Some(n)
  {
    var a, b := Two(n / 100), Digit(n % 100 / 10);
    var c := Digit(n % 100 % 10);
    TwoParses(n / 100);
    DigitIsItsValue(n % 100 / 10);
    DigitIsItsValue(n % 100 % 10);
    hide ParseInt, Digit, IsDigit, DigitValue, DigitsValue, AllDigits;
    DigitsPush(a, b);
    DigitsPush(a + [b], c);
    assert Four(n) == (a + [b]) + [c];
    Unsigned(Four(n));
  }

  datatype Zone = Utc(lower: bool) | Offset(west: bool, hours: int, minutes: int)

  predicate IsZone(z: Zone) {
    z.Offset? ==> 0 <= z.hours <= 99 && 0 <= z.minutes <= 99
  }

  function ZoneSeconds(z: Zone): int {
    match z
    case Utc(_) => 0
    case Offset(west, hours, minutes) => (if west then -1 else 1) * (hours * 3600 + minutes * 60)
  }

  function OffsetText(sign: char, hours: string, minutes: string): string {
    [sign] + hours + [':'] + minutes
  }

  function PrintZone(z: Zone): string
    requires IsZone(z)
  {
    match z
    case Utc(lower) => if lower then "z" else "Z"
    case Offset(west, hours, minutes) => OffsetText(if west then '-' else '+', Two(hours), Two(minutes))
  }

  /** A fraction of any number of digits, or none. */
  function PrintFraction(digits: Option<string>): string {
    match digits case None => "" case Some(d) => ['.'] + d
  }

  function Join(year: string, month: string, day: string, hour: string, minute: string, second: string, rest: string): string {
    year + ['-'] + month + ['-'] + day + ['T'] + hour + [':'] + minute + [':'] + second + rest
  }

  /** The timestamp of a local date and second of the day. */
  function PrintLocal(d: Date, second: int, digits: Option<string>, z: Zone): string
    requires IsDate(d) && 0 <= d.year <= 9999 && 0 <= second < 86_400 && IsZone(z)
  {
    Join(Four(d.year), Two(d.month), Two(d.day), Two(second / 3600), Two(second / 60 % 60), Two(second % 60),
         PrintFraction(digits) + PrintZone(z))
  }

  /** The timestamp of a Unix instant as a clock in zone `z` shows it. */
  function Print(instant: int, digits: Option<string>, z: Zone): string
    requires IsZone(z) && 0 <= DateOf((instant + ZoneSeconds(z)) / 86_400).year <= 9999
  {
    var clock := instant + ZoneSeconds(z);
    PrintLocal(DateOf(clock / 86_400), clock % 86_400, digits, z)
  }

  lemma UtcParses(lower: bool)
    ensures ParseZone(PrintZone(Utc(lower))) == Some(0)
    ensures PrintZone(Utc(lower)) != [] && !IsDigit(PrintZone(Utc(lower))[0]) && PrintZone(Utc(lower))[0] != '.'
  {
  }

  lemma ZoneParses(z: Zone)
    requires IsZone(z)
    ensures ParseZone(PrintZone(z)) == Some(ZoneSeconds(z))
    ensures PrintZone(z) != [] && !IsDigit(PrintZone(z)[0]) && PrintZone(z)[0] != '.'
  {
    hide ParseZone, OffsetText, Two;
    match z
    case Utc(lower) => UtcParses(lower);
    case Offset(west, hours, minutes) =>
      OffsetParses(if west then '-' else '+', hours, minutes);
  }

  lemma OffsetParses(sign: char, hours: int, minutes: int)
    requires (sign == '+' || sign == '-') && 0 <= hours <= 99 && 0 <= minutes <= 99
    ensures var s := OffsetText(sign, Two(hours), Two(minutes));
            && ParseZone(s) == Some(if sign == '-' then -(hours * 3600 + minutes * 60) else hours * 3600 + minutes * 60)
            && |s| == 6 && s[0] == sign && !IsDigit(s[0])
  {
    hide ParseInt, ParseZone, OffsetText, Two, DigitsValue, AllDigits;
    TwoParses(hours);
    TwoParses(minutes);
    OffsetFields(sign, Two(hours), Two(minutes));
    SixParses(OffsetText(sign, Two(hours), Two(minutes)), hours, minutes);
  }

  lemma OffsetFields(sign: char, hours: string, minutes: string)
    requires |hours| == |minutes| == 2
    ensures var s := OffsetText(sign, hours, minutes);
            |s| == 6 && s[0] == sign && s[1..3] == hours && s[4..6] == minutes
  {
  }

  lemma SixParses(s: string, hours: int, minutes: int)
    requires |s| == 6 && (s[0] == '+' || s[0] == '-')
    requires ParseInt(s[1..3]) == Some(hours) && ParseInt(s[4..6]) == Some(minutes)
    ensures ParseZone(s) == Some(if s[0] == '-' then -(hours * 3600 + minutes * 60) else hours * 3600 + minutes * 60)
  {
    hide ParseInt;
  }

  lemma {:induction false} CountDigitsStops(digits: string, rest: string)
    requires AllDigits(digits) && (rest == [] || !IsDigit(rest[0]))
    ensures CountDigits(digits + rest) == |digits|
  {
    if digits == [] {
      assert digits + rest == rest;
    } else {
      assert (digits + rest)[0] == digits[0] && (digits + rest)[1..] == digits[1..] + rest;
      CountDigitsStops(digits[1..], rest);
    }
  }

  lemma FractionSkipped(digits: Option<string>, rest: string)
    requires digits.Some? ==> AllDigits(digits.value)
    requires rest != [] && !IsDigit(rest[0]) && rest[0] != '.'
    ensures SkipFraction(PrintFraction(digits) + rest) == rest
  {
    match digits
    case None => assert "" + rest == rest;
    case Some(d) =>
      var s := PrintFraction(digits) + rest;
      assert s[0] == '.' && s[1..] == d + rest;
      CountDigitsStops(d, rest);
      assert (d + rest)[|d|..] == rest;
  }

  /** The fields of a printed timestamp are where the parser looks for them. */
  lemma FieldsOf(year: string, month: string, day: string, hour: string, minute: string, second: string, rest: string)
    requires |year| == 4 && |month| == |day| == |hour| == |minute| == |second| == 2 && rest != []
    ensures var s := Join(year, month, day, hour, minute, second, rest);
            && |s| >= 20 && s[4] == '-' && s[7] == '-' && s[13] == ':'
            && s[0..4] == year && s[5..7] == month && s[8..10] == day
            && s[11..13] == hour && s[14..16] == minute && s[17..19] == second && s[19..] == rest
  {
    var s := Join(year, month, day, hour, minute, second, rest);
    assert s[5] == month[0] && s[6] == month[1] && s[8] == day[0] && s[9] == day[1];
    assert s[11] == hour[0] && s[12] == hour[1] && s[14] == minute[0] && s[15] == minute[1];
    assert s[17] == second[0] && s[18] == second[1];
    assert |s| == 19 + |rest| && forall k :: 0 <= k < |rest| ==> s[19 + k] == rest[k];
  }

  lemma FieldsParse(year: string, month: string, day: string, hour: string, minute: string, second: string, rest: string,
                    d: Date, h: int, m: int, sec: int, offset: int)
    requires |year| == 4 && |month| == |day| == |hour| == |minute| == |second| == 2 && rest != []
    requires ParseInt(year) == Some(d.year) && ParseInt(month) == Some(d.month) && ParseInt(day) == Some(d.day)
    requires ParseInt(hour) == Some(h) && ParseInt(minute) == Some(m) && ParseInt(second) == Some(sec)
    requires ParseZone(SkipFraction(rest)) == Some(offset)
    ensures ParseRfc3339(Join(year, month, day, hour, minute, second, rest))
         == Some(DaysFromCivil(d.year, d.month, d.day) * 86_400 + h * 3600 + m * 60 + sec - offset)
  {
    hide ParseInt, ParseZone, SkipFraction, DaysFromCivil, Join;
    FieldsOf(year, month, day, hour, minute, second, rest);
  }

  lemma ClockSplits(second: int)
    requires 0 <= second < 86_400
    ensures second / 3600 * 3600 + second / 60 % 60 * 60 + second % 60 == second
    ensures 0 <= second / 3600 <= 23
  {
  }

  lemma NumbersParse(d: Date, h: int, m: int, s: int, rest: string, offset: int)
    requires IsDate(d) && 0 <= d.year <= 9999 && 0 <= h <= 23 && 0 <= m <= 59 && 0 <= s <= 59
    requires rest != [] && ParseZone(SkipFraction(rest)) == Some(offset)
    ensures ParseRfc3339(Join(Four(d.year), Two(d.month), Two(d.day), Two(h), Two(m), Two(s), rest))
         == Some(DaysFromCivil(d.year, d.month, d.day) * 86_400 + h * 3600 + m * 60 + s - offset)
  {
    hide ParseInt, Two, Four, ParseZone, SkipFraction, DaysFromCivil, ParseRfc3339, Join, IsLeap;
    FourParses(d.year);
    TwoParses(d.month);
    TwoParses(d.day);
    TwoParses(h);
    TwoParses(m);
    TwoParses(s);
    FieldsParse(Four(d.year), Two(d.month), Two(d.day), Two(h), Two(m), Two(s), rest, d, h, m, s, offset);
  }

  lemma LocalParses(d: Date, second: int, digits: Option<string>, z: Zone)
    requires IsDate(d) && 0 <= d.year <= 9999 && 0 <= second < 86_400 && IsZone(z)
    requires digits.Some? ==> AllDigits(digits.value)
    ensures ParseRfc3339(PrintLocal(d, second, digits, z))
         == Some(DaysFromCivil(d.year, d.month, d.day) * 86_400 + second - ZoneSeconds(z))
  {
    hide ParseInt, Two, Four, ParseZone, SkipFraction, PrintZone, PrintFraction, DaysFromCivil, AllDigits, ZoneSeconds,
         ParseRfc3339, Join, IsDate;
    ClockSplits(second);
    ZoneParses(z);
    FractionSkipped(digits, PrintZone(z));
    NumbersParse(d, second / 3600, second / 60 % 60, second % 60, PrintFraction(digits) + PrintZone(z), ZoneSeconds(z));
  }

  lemma DaySplits(clock: int)
    ensures clock / 86_400 * 86_400 + clock % 86_400 == clock && 0 <= clock % 86_400 < 86_400
  {
  }

  /** Printing an instant in any zone, with any fraction, and parsing it gives the instant back. */
  lemma PrintParses(instant: int, digits: Option<string>, z: Zone)
    requires IsZone(z) && 0 <= DateOf((instant + ZoneSeconds(z)) / 86_400).year <= 9999
    requires digits.Some? ==> AllDigits(digits.value)
    ensures ParseRfc3339(Print(instant, digits, z)) == Some(instant)
  {
    hide ParseRfc3339, PrintLocal, DaysFromCivil, ZoneSeconds, AllDigits, DateOf;
    var clock := instant + ZoneSeconds(z);
    DaySplits(clock);
    LocalParses(DateOf(clock / 86_400), clock % 86_400, digits, z);
    FormulaCountsDays(clock / 86_400);
  }
}
