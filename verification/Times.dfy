/** The times of mock/event-pieces.ts: parseOccurredAt, which reads RFC 3339 text
    (section 5.6 of RFC 3339), rfc3339, and the order of Instants. */
module Times {
  import opened Options
  import opened Utf8

  // ---------------------------------------------------------------- Dates

  datatype Date = Date(year: int, month: int, day: int)

  predicate IsMultiple(year: int, n: int)
    requires n > 0
  {
    year % n == 0
  }

  predicate Leap(year: int) {
    IsMultiple(year, 4) && (!IsMultiple(year, 100) || IsMultiple(year, 400))
  }

  function DaysIn(year: int, month: int): int {
    if month == 2 then if Leap(year) then 29 else 28
    else if month == 4 || month == 6 || month == 9 || month == 11 then 30
    else 31
  }

  predicate ValidDate(d: Date) {
    1 <= d.month <= 12 && 1 <= d.day <= DaysIn(d.year, d.month)
  }

  function NextDay(d: Date): Date {
    if d.day < DaysIn(d.year, d.month) then d.(day := d.day + 1)
    else if d.month < 12 then Date(d.year, d.month + 1, 1)
    else Date(d.year + 1, 1, 1)
  }

  function PreviousDay(d: Date): Date {
    if d.day > 1 then d.(day := d.day - 1)
    else if d.month > 1 then Date(d.year, d.month - 1, DaysIn(d.year, d.month - 1))
    else Date(d.year - 1, 12, 31)
  }

  /** The years before a year that are multiples of n, from a fixed one on. */
  function MultiplesBefore(year: int, n: int): int
    requires n > 0
  {
    (year - 1) / n
  }

  /** Days before a year, and before a month of it, from a fixed day on. */
  function DaysBeforeYear(year: int): int {
    365 * year + MultiplesBefore(year, 4) - MultiplesBefore(year, 100) + MultiplesBefore(year, 400)
  }

  function DaysBeforeMonth(year: int, month: int): int
    decreases month
  {
    if month <= 1 then 0 else DaysBeforeMonth(year, month - 1) + DaysIn(year, month - 1)
  }

  /** The number of a day in the proleptic Gregorian calendar. */
  function DayNumber(d: Date): int {
    DaysBeforeYear(d.year) + DaysBeforeMonth(d.year, d.month) + d.day
  }

  lemma YearDays(year: int)
    ensures DaysBeforeYear(year + 1) - DaysBeforeYear(year) == if Leap(year) then 366 else 365
  {
    hide MultiplesBefore, IsMultiple;
    Fours(year);
    Hundreds(year);
    HundredsAreFours(year);
    FourHundreds(year);
  }

  lemma Fours(year: int)
    ensures MultiplesBefore(year + 1, 4) == MultiplesBefore(year, 4) + if IsMultiple(year, 4) then 1 else 0
  {
  }

  lemma Hundreds(year: int)
    ensures MultiplesBefore(year + 1, 100) == MultiplesBefore(year, 100) + if IsMultiple(year, 100) then 1 else 0
  {
    var q := year / 100;
    var before := if year == 100 * q then q - 1 else q;
    assert 100 * q <= year < 100 * q + 100;
    HundredsIn(year - 1, before);
  }

  lemma HundredsAreFours(year: int)
    ensures IsMultiple(year, 100) ==> IsMultiple(year, 4)
  {
    var q := year / 100;
    if year == 100 * q {
      FoursIn(year, 25 * q);
    }
  }

  lemma FoursIn(n: int, q: int)
    requires 4 * q <= n < 4 * q + 4
    ensures n % 4 == n - 4 * q
  {
  }

  lemma HundredsIn(n: int, q: int)
    requires 100 * q <= n < 100 * q + 100
    ensures n / 100 == q
  {
  }

  lemma FourHundreds(year: int)
    ensures MultiplesBefore(year + 1, 400) == MultiplesBefore(year, 400) + if IsMultiple(year, 400) then 1 else 0
    ensures IsMultiple(year, 400) ==> IsMultiple(year, 100)
  {
    var q := year / 400;
    var before := if year == 400 * q then q - 1 else q;
    assert 400 * q <= year < 400 * q + 400;
    FourHundredsIn(year - 1, before);
    if year == 400 * q {
      HundredsIn(year, 4 * q);
    }
  }

  lemma FourHundredsIn(n: int, q: int)
    requires 400 * q <= n < 400 * q + 400
    ensures n / 400 == q
  {
  }

  lemma MonthDays(year: int)
    ensures DaysBeforeMonth(year, 12) + 31 == if Leap(year) then 366 else 365
    ensures DaysBeforeMonth(year, 1) == 0
    ensures forall m :: 1 <= m < 12 ==> DaysBeforeMonth(year, m + 1) == DaysBeforeMonth(year, m) + DaysIn(year, m)
  {
    assert DaysBeforeMonth(year, 1) == 0;
    assert DaysBeforeMonth(year, 3) == 31 + DaysIn(year, 2);
    assert DaysBeforeMonth(year, 5) == DaysBeforeMonth(year, 3) + 61;
    assert DaysBeforeMonth(year, 7) == DaysBeforeMonth(year, 5) + 61;
    assert DaysBeforeMonth(year, 9) == DaysBeforeMonth(year, 7) + 62;
    assert DaysBeforeMonth(year, 11) == DaysBeforeMonth(year, 9) + 61;
  }

  lemma NextDayNumber(d: Date)
    requires ValidDate(d)
    ensures ValidDate(NextDay(d)) && DayNumber(NextDay(d)) == DayNumber(d) + 1
  {
    hide DaysBeforeYear, DaysBeforeMonth, Leap;
    MonthDays(d.year);
    MonthDays(d.year + 1);
    YearDays(d.year);
  }

  lemma PreviousDayNumber(d: Date)
    requires ValidDate(d)
    ensures ValidDate(PreviousDay(d)) && DayNumber(PreviousDay(d)) == DayNumber(d) - 1
  {
    hide DaysBeforeYear, DaysBeforeMonth, Leap;
    MonthDays(d.year);
    MonthDays(d.year - 1);
    YearDays(d.year - 1);
    assert d.day == 1 && d.month > 1 ==>
        DaysBeforeMonth(d.year, d.month) == DaysBeforeMonth(d.year, d.month - 1) + DaysIn(d.year, d.month - 1);
  }

  /** The day so many days on. */
  function Shifted(d: Date, days: int): Date
    decreases if days < 0 then -days else days
  {
    if days == 0 then d else if days > 0 then Shifted(NextDay(d), days - 1) else Shifted(PreviousDay(d), days + 1)
  }

  lemma {:induction false} ShiftedNumber(d: Date, days: int)
    requires ValidDate(d)
    ensures ValidDate(Shifted(d, days)) && DayNumber(Shifted(d, days)) == DayNumber(d) + days
    decreases if days < 0 then -days else days
  {
    hide DayNumber, ValidDate, NextDay, PreviousDay;
    if days > 0 {
      NextDayNumber(d);
      ShiftedNumber(NextDay(d), days - 1);
    } else if days < 0 {
      PreviousDayNumber(d);
      ShiftedNumber(PreviousDay(d), days + 1);
    }
  }

  predicate DateBefore(a: Date, b: Date) {
    a.year < b.year || (a.year == b.year && (a.month < b.month || (a.month == b.month && a.day < b.day)))
  }

  /** A date before another has the lower number. */
  lemma DatesInOrder(a: Date, b: Date)
    requires ValidDate(a) && ValidDate(b) && DateBefore(a, b)
    ensures DayNumber(a) < DayNumber(b)
  {
    hide DaysBeforeYear;
    MonthsGrow(a.year, a.month, 12);
    MonthDays(a.year);
    MonthsGrow(b.year, 1, b.month);
    assert DaysBeforeMonth(b.year, 1) == 0;
    if a.year < b.year {
      YearDays(a.year);
      YearsGrow(a.year + 1, b.year);
    } else if a.month < b.month {
      MonthsGrow(a.year, a.month + 1, b.month);
    }
  }

  lemma {:induction false} YearsGrow(a: int, b: int)
    requires a <= b
    ensures DaysBeforeYear(a) <= DaysBeforeYear(b)
    decreases b - a
  {
    hide DaysBeforeYear;
    if a < b {
      YearsGrow(a, b - 1);
      YearDays(b - 1);
    }
  }

  lemma {:induction false} MonthsGrow(year: int, a: int, b: int)
    requires 1 <= a <= b
    ensures DaysBeforeMonth(year, a) <= DaysBeforeMonth(year, b)
    ensures a < b ==> DaysBeforeMonth(year, a) + DaysIn(year, a) <= DaysBeforeMonth(year, b)
    decreases b - a
  {
    if a < b {
      MonthsGrow(year, a, b - 1);
    }
  }

  /** The closed form of a day's number, with years that begin in March. */
  function CivilNumber(d: Date): int {
    var year := if d.month <= 2 then d.year - 1 else d.year;
    var month := if d.month <= 2 then d.month + 9 else d.month - 3;
    365 * year + year / 4 - year / 100 + year / 400 + (153 * month + 2) / 5 + d.day - 1
  }

  /** Days counted month by month and year by year are those of the closed form. */
  lemma CalendarDays(d: Date)
    requires ValidDate(d)
    ensures DayNumber(d) == CivilNumber(d) + 60
    ensures 1 <= d.day <= 31 && (d.month == 2 ==> d.day <= 29)
    ensures CivilNumber(Date(1970, 1, 1)) == 719468
  {
    hide DaysBeforeMonth, Leap;
    YearDays(d.year);
    MonthDays(d.year);
    if d.month >= 3 {
      MonthsFromMarch(d.year, d.month);
    }
  }

  lemma {:induction false} MonthsFromMarch(year: int, month: int)
    requires 3 <= month <= 12
    ensures DaysBeforeMonth(year, month) == 59 + (if Leap(year) then 1 else 0) + (153 * (month - 3) + 2) / 5
    decreases month
  {
    hide Leap;
    if month == 3 {
      assert DaysBeforeMonth(year, 1) == 0 && DaysBeforeMonth(year, 2) == 31;
    } else {
      MonthsFromMarch(year, month - 1);
      assert month == 4 || month == 5 || month == 6 || month == 7 || month == 8 || month == 9 || month == 10 || month == 11 || month == 12;
    }
  }

  // ---------------------------------------------------------------- Instants

  /** A time in UTC to the microsecond. */
  datatype Instant = Instant(date: Date, second: int, micros: int)

  const DAY_SECONDS: int := 86400

  predicate ValidInstant(i: Instant) {
    ValidDate(i.date) && 1000 <= i.date.year <= 9999 && 0 <= i.second < DAY_SECONDS && 0 <= i.micros < 1_000_000
  }

  /** The seconds of a time of day on a date, whatever day the fixed one is. */
  function Moment(d: Date, second: int): int {
    DayNumber(d) * DAY_SECONDS + second
  }

  function DigitChar(n: int): char
    requires 0 <= n < 10
  {
    '0' + n as char
  }

  function Two(n: int): (s: string)
    requires 0 <= n < 100
    ensures |s| == 2
  {
    [DigitChar(n / 10), DigitChar(n % 10)]
  }

  function Stamp(d: Date, second: int): string
    requires 0 <= d.year <= 9999 && ValidDate(d) && 0 <= second < DAY_SECONDS
  {
    Two(d.year / 100) + (Two(d.year % 100) + ("-" + (Two(d.month) + ("-" + (Two(d.day) + ("T" + Clock(second)))))))
  }

  function Clock(second: int): string
    requires 0 <= second < DAY_SECONDS
  {
    Two(second / 3600) + (":" + (Two(second / 60 % 60) + (":" + Two(second % 60))))
  }

  function Micros(n: int): (s: string)
    requires 0 <= n < 1_000_000
    ensures |s| == 6
  {
    Two(n / 10000) + (Two(n / 100 % 100) + Two(n % 100))
  }

  /** An Instant as a send stores it, always with six digits of fraction. */
  function TextOf(i: Instant): string
    requires ValidInstant(i)
  {
    Stamp(i.date, i.second) + ("." + (Micros(i.micros) + "Z"))
  }

  /** A fraction without its trailing zeros. */
  function TrimZeros(digits: string): string {
    if digits == [] || digits[|digits| - 1] != '0' then digits else TrimZeros(digits[..|digits| - 1])
  }

  /** An Instant as Go's time.RFC3339Nano writes it: no trailing zeros. */
  function Rfc3339(at: string): string {
    if |at| < 26 then at
    else
      var fraction := TrimZeros(at[20..26]);
      at[..19] + (if fraction == "" then "" else "." + fraction) + "Z"
  }

  // ---------------------------------------------------------------- Reading

  predicate IsDigit(c: char) {
    '0' <= c <= '9'
  }

  function DigitOf(c: char): (n: int)
    requires IsDigit(c)
    ensures 0 <= n < 10
  {
    c as int - '0' as int
  }

  /** Two digits, and the text after them. */
  function TakeTwo(text: string): Option<(int, string)> {
    if |text| >= 2 && IsDigit(text[0]) && IsDigit(text[1])
    then Some((DigitOf(text[0]) * 10 + DigitOf(text[1]), text[2..])) else None
  }

  /** One digit or two, before a colon. */
  function TakeHour(text: string): Option<(int, string)> {
    if |text| >= 2 && IsDigit(text[0]) && text[1] == ':' then Some((DigitOf(text[0]), text[1..])) else TakeTwo(text)
  }

  function Expect(text: string, c: char): Option<string> {
    if text != "" && text[0] == c then Some(text[1..]) else None
  }

  function DigitRun(text: string): (n: nat)
    ensures n <= |text| && (forall k :: 0 <= k < n ==> IsDigit(text[k])) && (n < |text| ==> !IsDigit(text[n]))
  {
    if text != "" && IsDigit(text[0]) then 1 + DigitRun(text[1..]) else 0
  }

  /** What the text says: a local date and time, its fraction's digits, and how many
      minutes it is ahead of UTC. */
  datatype Parts = Parts(date: Date, hour: int, minute: int, second: int, fraction: string, offset: Option<Offset>)

  datatype Offset = Offset(behind: bool, hours: int, minutes: int)

  function ReadDate(text: string): Option<(Date, string)> {
    var century := TakeTwo(text);
    if century.None? then None else
    var year := TakeTwo(century.value.1);
    if year.None? || Expect(year.value.1, '-').None? then None else
    var month := TakeTwo(Expect(year.value.1, '-').value);
    if month.None? || Expect(month.value.1, '-').None? then None else
    var day := TakeTwo(Expect(month.value.1, '-').value);
    if day.None? then None
    else Some((Date(century.value.0 * 100 + year.value.0, month.value.0, day.value.0), day.value.1))
  }

  function ReadClock(text: string): Option<(int, int, int, string)> {
    var hour := TakeHour(text);
    if hour.None? || Expect(hour.value.1, ':').None? then None else
    var minute := TakeTwo(Expect(hour.value.1, ':').value);
    if minute.None? || Expect(minute.value.1, ':').None? then None else
    var second := TakeTwo(Expect(minute.value.1, ':').value);
    if second.None? then None else Some((hour.value.0, minute.value.0, second.value.0, second.value.1))
  }

  /** A fraction after a dot or a comma, if any. */
  function ReadFraction(text: string): Option<(string, string)> {
    if text != "" && (text[0] == '.' || text[0] == ',') then
      var n := DigitRun(text[1..]);
      if n == 0 then None else Some((text[1..1 + n], text[1 + n..]))
    else Some(("", text))
  }

  function ReadZone(text: string): Option<Option<Offset>> {
    if text == "Z" then Some(None)
    else if text == "" || (text[0] != '+' && text[0] != '-') then None
    else
      var hours := TakeTwo(text[1..]);
      if hours.None? || Expect(hours.value.1, ':').None? then None else
      var minutes := TakeTwo(Expect(hours.value.1, ':').value);
      if minutes.None? || minutes.value.1 != "" then None
      else Some(Some(Offset(text[0] == '-', hours.value.0, minutes.value.0)))
  }

  function Read(text: string): Option<Parts> {
    var date := ReadDate(text);
    if date.None? || Expect(date.value.1, 'T').None? then None else
    var clock := ReadClock(Expect(date.value.1, 'T').value);
    if clock.None? then None else
    var fraction := ReadFraction(clock.value.3);
    if fraction.None? then None else
    var zone := ReadZone(fraction.value.1);
    if zone.None? then None
    else Some(Parts(date.value.0, clock.value.0, clock.value.1, clock.value.2, fraction.value.0, zone.value))
  }

  predicate InRange(p: Parts) {
    && ValidDate(p.date) && 0 <= p.hour <= 23 && 0 <= p.minute <= 59 && 0 <= p.second <= 59
    && (p.offset.Some? ==> 0 <= p.offset.value.hours <= 24 && 0 <= p.offset.value.minutes <= 60)
  }

  function LocalSecond(p: Parts): int {
    p.hour * 3600 + p.minute * 60 + p.second
  }

  /** How far ahead of UTC the text's time is, in seconds. */
  function OffsetSeconds(p: Parts): int {
    if p.offset.None? then 0
    else (if p.offset.value.behind then -1 else 1) * (p.offset.value.hours * 60 + p.offset.value.minutes) * 60
  }

  function Zeros(n: nat): (s: string)
    ensures |s| == n
  {
    if n == 0 then "" else Zeros(n - 1) + "0"
  }

  /** The fraction's first six digits, zeros for those it lacks. */
  function SixDigits(fraction: string): (six: string)
    ensures |six| == 6
  {
    (fraction + Zeros(6))[..6]
  }

  datatype Parsed = At(instant: string) | Garbled | YearOutOfRange

  function UtcDate(p: Parts): Date {
    Shifted(p.date, (LocalSecond(p) - OffsetSeconds(p)) / DAY_SECONDS)
  }

  function UtcSecond(p: Parts): (second: int)
    ensures 0 <= second < DAY_SECONDS
  {
    (LocalSecond(p) - OffsetSeconds(p)) % DAY_SECONDS
  }

  lemma UtcDateValid(p: Parts)
    requires InRange(p)
    ensures ValidDate(UtcDate(p))
  {
    hide ValidDate, Shifted, DayNumber, LocalSecond, OffsetSeconds;
    ShiftedNumber(p.date, (LocalSecond(p) - OffsetSeconds(p)) / DAY_SECONDS);
  }

  /** The text of the parts' moment in UTC. */
  function InstantAt(p: Parts): Parsed
    requires InRange(p)
  {
    hide InRange, ValidDate, UtcDate, UtcSecond, Stamp, SixDigits;
    UtcDateValid(p);
    if UtcDate(p).year < 1000 || UtcDate(p).year > 9999 then YearOutOfRange
    else At(Stamp(UtcDate(p), UtcSecond(p)) + ("." + (SixDigits(p.fraction) + "Z")))
  }

  /** Reads a piece's occurred_at. */
  function ParseOccurredAt(text: string): Parsed {
    var read := Read(text);
    if read.None? || !InRange(read.value) then Garbled else InstantAt(read.value)
  }

  // ---------------------------------------------------------------- What reading means

  predicate AreDigits(s: string) {
    forall k :: 0 <= k < |s| ==> IsDigit(s[k])
  }

  function NumberOf(digits: string): (n: int)
    requires AreDigits(digits)
    ensures n >= 0
  {
    if digits == "" then 0 else NumberOf(digits[..|digits| - 1]) * 10 + DigitOf(digits[|digits| - 1])
  }

  function Pow10(k: nat): (p: nat)
    ensures p > 0
  {
    if k == 0 then 1 else 10 * Pow10(k - 1)
  }

  lemma {:induction false} NumberConcat(a: string, b: string)
    requires AreDigits(a) && AreDigits(b)
    ensures AreDigits(a + b) && NumberOf(a + b) == NumberOf(a) * Pow10(|b|) + NumberOf(b)
    ensures NumberOf(b) < Pow10(|b|)
  {
    if b == "" {
      assert a + b == a;
    } else {
      var n := |b| - 1;
      assert (a + b)[..|a| + n] == a + b[..n];
      NumberConcat(a, b[..n]);
      TenTimes(NumberOf(a), Pow10(n));
    }
  }

  lemma TenTimes(a: int, b: int)
    ensures a * (10 * b) == (a * b) * 10
  {
  }

  lemma {:induction false} PowSplit(a: nat, b: nat)
    ensures Pow10(a + b) == Pow10(a) * Pow10(b)
  {
    if b > 0 {
      PowSplit(a, b - 1);
      TenTimes(Pow10(a), Pow10(b - 1));
    }
  }

  lemma {:induction false} ZerosNumber(n: nat)
    ensures AreDigits(Zeros(n)) && NumberOf(Zeros(n)) == 0
  {
    hide NumberOf, AreDigits;
    NumberOfNone();
    if n > 0 {
      ZerosNumber(n - 1);
      ZeroLast(Zeros(n - 1));
    }
  }

  lemma NumberOfNone()
    ensures AreDigits("") && NumberOf("") == 0
  {
  }

  lemma ZeroLast(digits: string)
    requires AreDigits(digits)
    ensures AreDigits(digits + "0") && NumberOf(digits + "0") == NumberOf(digits) * 10
  {
    assert (digits + "0")[..|digits|] == digits;
  }

  lemma MillionIsSix()
    ensures Pow10(6) == 1_000_000
  {
    assert Pow10(3) == 1000;
  }

  lemma SixNumber(six: string)
    requires |six| == 6 && AreDigits(six)
    ensures 0 <= NumberOf(six) < 1_000_000 && Micros(NumberOf(six)) == six
  {
    hide NumberOf, Two, Pow10;
    var a, b, c := six[..2], six[2..4], six[4..];
    assert six == a + (b + c);
    TwoNumber(a);
    TwoNumber(b);
    TwoNumber(c);
    NumberConcat(b, c);
    NumberConcat(a, b + c);
    HundredIsTwo();
    ThreePairs(NumberOf(a), NumberOf(b), NumberOf(c));
  }

  lemma HundredIsTwo()
    ensures Pow10(2) == 100 && Pow10(4) == 10000
  {
    assert Pow10(2) == 10 * Pow10(1);
    assert Pow10(4) == 10 * Pow10(3);
  }

  lemma ThreePairs(a: int, b: int, c: int)
    requires 0 <= a < 100 && 0 <= b < 100 && 0 <= c < 100
    ensures var n := a * 10000 + (b * 100 + c);
            0 <= n < 1_000_000 && n / 10000 == a && n / 100 % 100 == b && n % 100 == c
  {
    var n := a * 10000 + (b * 100 + c);
    assert n / 100 == a * 100 + b;
  }

  lemma TwoNumber(two: string)
    requires |two| == 2 && AreDigits(two)
    ensures 0 <= NumberOf(two) < 100 && Two(NumberOf(two)) == two
  {
    assert two[..1][..0] == "" && NumberOf(two[..1]) == DigitOf(two[0]);
  }

  /** A fraction's microseconds: the whole ones, what is beyond dropped. */
  function MicrosOf(fraction: string): (m: int)
    requires AreDigits(fraction)
  {
    SixAreDigits(fraction);
    NumberOf(SixDigits(fraction))
  }

  /** The six digits are the fraction's whole microseconds: 0.fraction is at least so
      many millionths and less than one more. */
  lemma MicrosFloor(fraction: string)
    requires AreDigits(fraction)
    ensures var m := MicrosOf(fraction);
            && 0 <= m < 1_000_000 && Micros(m) == SixDigits(fraction)
            && m * Pow10(|fraction|) <= NumberOf(fraction) * 1_000_000 < (m + 1) * Pow10(|fraction|)
  {
    hide NumberOf, Micros, Pow10, SixDigits;
    SixAreDigits(fraction);
    SixNumber(SixDigits(fraction));
    if |fraction| >= 6 {
      FirstSix(fraction);
      LongFraction(fraction[..6], fraction[6..]);
    } else {
      ShortFraction(fraction);
    }
  }

  lemma FirstSix(fraction: string)
    requires |fraction| >= 6
    ensures SixDigits(fraction) == fraction[..6] && fraction == fraction[..6] + fraction[6..]
  {
    hide Zeros;
  }

  lemma SixAreDigits(fraction: string)
    requires AreDigits(fraction)
    ensures AreDigits(SixDigits(fraction))
  {
    hide Zeros;
    ZerosAre(6);
  }

  lemma LongFraction(six: string, rest: string)
    requires AreDigits(six) && |six| == 6 && AreDigits(rest)
    ensures AreDigits(six + rest)
    ensures var m := NumberOf(six);
            m * Pow10(6 + |rest|) <= NumberOf(six + rest) * 1_000_000 < (m + 1) * Pow10(6 + |rest|)
  {
    hide NumberOf, Pow10;
    NumberConcat(six, rest);
    MillionTimes(|rest|);
    FloorLong(NumberOf(six), Pow10(|rest|), NumberOf(rest), NumberOf(six + rest), Pow10(6 + |rest|));
  }

  lemma ShortFraction(fraction: string)
    requires AreDigits(fraction) && |fraction| < 6
    ensures var m := MicrosOf(fraction);
            m * Pow10(|fraction|) <= NumberOf(fraction) * 1_000_000 < (m + 1) * Pow10(|fraction|)
  {
    hide NumberOf, Pow10, Zeros;
    var n := 6 - |fraction|;
    PaddedSix(fraction);
    ZerosAre(n);
    ZerosNumber(n);
    NumberConcat(fraction, Zeros(n));
    PowSplit(|fraction|, n);
    MillionIsSix();
    FloorShort(NumberOf(fraction), Pow10(|fraction|), Pow10(n));
  }

  lemma PaddedSix(fraction: string)
    requires |fraction| < 6
    ensures SixDigits(fraction) == fraction + Zeros(6 - |fraction|)
  {
    hide Zeros;
    TakeConcat(fraction, Zeros(6), 6);
    ZerosTake(6, 6 - |fraction|);
  }

  lemma TakeConcat(a: string, b: string, n: nat)
    requires |a| <= n <= |a| + |b|
    ensures (a + b)[..n] == a + b[..n - |a|]
  {
  }

  lemma ZerosTake(n: nat, k: nat)
    requires k <= n
    ensures Zeros(n)[..k] == Zeros(k)
  {
    hide Zeros;
    ZerosAre(n);
    ZerosAre(k);
  }

  lemma MillionTimes(k: nat)
    ensures Pow10(6 + k) == 1_000_000 * Pow10(k)
  {
    hide Pow10;
    PowSplit(6, k);
    MillionIsSix();
  }

  lemma FloorLong(m: int, p: int, rest: int, n: int, all: int)
    requires 0 <= rest < p && n == m * p + rest && all == 1_000_000 * p
    ensures m * all <= n * 1_000_000 < (m + 1) * all
  {
    assert m * all == m * p * 1_000_000;
  }

  lemma FloorShort(n: int, p: int, q: int)
    requires p * q == 1_000_000 && p > 0
    ensures (n * q) * p <= n * 1_000_000 < (n * q + 1) * p
  {
    assert (n * q) * p == n * (p * q);
  }

  lemma FractionDigits(text: string)
    requires Read(text).Some?
    ensures AreDigits(Read(text).value.fraction)
  {
    hide ReadDate, ReadClock, ReadZone;
  }

  function InstantOf(p: Parts): Instant
    requires AreDigits(p.fraction)
  {
    Instant(UtcDate(p), UtcSecond(p), MicrosOf(p.fraction))
  }

  /** Text that reads parses to the Instant of the same UTC moment, its fraction's whole
      microseconds, unless the year in UTC is out of range: the second is its local one
      less its offset. */
  lemma ParsesTheMoment(text: string)
    requires Read(text).Some? && InRange(Read(text).value)
    ensures var p := Read(text).value;
            && AreDigits(p.fraction)
            && Moment(InstantOf(p).date, InstantOf(p).second) == Moment(p.date, LocalSecond(p)) - OffsetSeconds(p)
            && var m := InstantOf(p).micros;
               m * Pow10(|p.fraction|) <= NumberOf(p.fraction) * 1_000_000 < (m + 1) * Pow10(|p.fraction|)
    ensures var i := InstantOf(Read(text).value);
            if 1000 <= i.date.year <= 9999 then ValidInstant(i) && ParseOccurredAt(text) == At(TextOf(i))
            else ParseOccurredAt(text) == YearOutOfRange
  {
    hide Read, DayNumber, ValidDate, Shifted, Stamp, Micros, NumberOf, SixDigits;
    var p := Read(text).value;
    FractionDigits(text);
    MicrosFloor(p.fraction);
    ShiftedNumber(p.date, (LocalSecond(p) - OffsetSeconds(p)) / DAY_SECONDS);
    var total := LocalSecond(p) - OffsetSeconds(p);
    assert total == total / DAY_SECONDS * DAY_SECONDS + total % DAY_SECONDS;
  }

  // ---------------------------------------------------------------- The round trip

  lemma TakesTwo(n: int, rest: string)
    requires 0 <= n < 100
    ensures TakeTwo(Two(n) + rest) == Some((n, rest))
    ensures TakeHour(Two(n) + rest) == Some((n, rest))
  {
    assert (Two(n) + rest)[2..] == rest;
  }

  lemma Expects(c: char, rest: string)
    ensures Expect([c] + rest, c) == Some(rest)
  {
    assert ([c] + rest)[1..] == rest;
  }

  lemma ReadsDate(d: Date, second: int, rest: string)
    requires 0 <= d.year <= 9999 && ValidDate(d) && 0 <= second < DAY_SECONDS
    ensures ReadDate(Stamp(d, second) + rest) == Some((d, "T" + (Clock(second) + rest)))
  {
    hide TakeTwo, Expect, Clock, Two, TakeHour;
    var day := "T" + (Clock(second) + rest);
    var month := Two(d.day) + day;
    var year := Two(d.month) + ("-" + month);
    assert Stamp(d, second) + rest == Two(d.year / 100) + (Two(d.year % 100) + ("-" + year));
    TakesTwo(d.year / 100, Two(d.year % 100) + ("-" + year));
    TakesTwo(d.year % 100, "-" + year);
    Expects('-', year);
    TakesTwo(d.month, "-" + month);
    Expects('-', month);
    TakesTwo(d.day, day);
  }

  lemma ReadsClock(second: int, rest: string)
    requires 0 <= second < DAY_SECONDS
    ensures ReadClock(Clock(second) + rest) == Some((second / 3600, second / 60 % 60, second % 60, rest))
  {
    hide TakeTwo, Expect, Two, TakeHour;
    var minute := Two(second / 60 % 60) + (":" + (Two(second % 60) + rest));
    assert Clock(second) + rest == Two(second / 3600) + (":" + minute);
    TakesTwo(second / 3600, ":" + minute);
    Expects(':', minute);
    TakesTwo(second / 60 % 60, ":" + (Two(second % 60) + rest));
    Expects(':', Two(second % 60) + rest);
    TakesTwo(second % 60, rest);
  }

  lemma {:induction false} TrimPads(s: string)
    ensures |TrimZeros(s)| <= |s| && s == TrimZeros(s) + Zeros(|s| - |TrimZeros(s)|)
  {
    if s != "" && s[|s| - 1] == '0' {
      TrimPads(s[..|s| - 1]);
      assert s == s[..|s| - 1] + "0";
    }
  }

  lemma {:induction false} ZerosAre(n: nat)
    ensures |Zeros(n)| == n && forall i :: 0 <= i < n ==> Zeros(n)[i] == '0'
  {
    if n > 0 {
      ZerosAre(n - 1);
    }
  }

  /** Padding a trimmed fraction gives it back. */
  lemma TrimThenPad(six: string)
    requires |six| == 6
    ensures SixDigits(TrimZeros(six)) == six
  {
    TrimPads(six);
    ZerosAre(6 - |TrimZeros(six)|);
    ZerosAre(6);
    var trimmed := TrimZeros(six);
    forall i | 0 <= i < 6
      ensures (trimmed + Zeros(6))[i] == six[i]
    {
    }
  }

  lemma {:induction false} AllDigits(digits: string, rest: string)
    requires (forall k :: 0 <= k < |digits| ==> IsDigit(digits[k])) && (rest == "" || !IsDigit(rest[0]))
    ensures DigitRun(digits + rest) == |digits|
  {
    if digits == "" {
      assert digits + rest == rest;
    } else {
      assert (digits + rest)[1..] == digits[1..] + rest;
      AllDigits(digits[1..], rest);
    }
  }

  lemma ReadsFraction(fraction: string)
    requires forall k :: 0 <= k < |fraction| ==> IsDigit(fraction[k])
    ensures ReadFraction((if fraction == "" then "" else "." + fraction) + "Z") == Some((fraction, "Z"))
  {
    if fraction != "" {
      var text := "." + fraction + "Z";
      assert text[1..] == fraction + "Z";
      AllDigits(fraction, "Z");
      assert text[1..1 + |fraction|] == fraction && text[1 + |fraction|..] == "Z";
    } else {
      assert "" + "Z" == "Z";
    }
  }

  lemma MicroDigits(n: int)
    requires 0 <= n < 1_000_000
    ensures forall k :: 0 <= k < 6 ==> IsDigit(Micros(n)[k])
  {
  }

  lemma StampLength(d: Date, second: int)
    requires 0 <= d.year <= 9999 && ValidDate(d) && 0 <= second < DAY_SECONDS
    ensures |Stamp(d, second)| == 19
  {
  }

  /** An Instant written as RFC 3339 reads back as itself. */
  lemma RoundTrip(i: Instant)
    requires ValidInstant(i)
    ensures ParseOccurredAt(Rfc3339(TextOf(i))) == At(TextOf(i))
  {
    var stamp, six := Stamp(i.date, i.second), Micros(i.micros);
    StampLength(i.date, i.second);
    MicroDigits(i.micros);
    TrimPads(six);
    TrimThenPad(six);
    var fraction := TrimZeros(six);
    forall k | 0 <= k < |fraction|
      ensures IsDigit(fraction[k])
    {
      assert fraction[k] == six[k];
    }
    ReadsFraction(fraction);
    ReadBack(i, fraction);
    Slices(stamp, six);
  }

  /** The fraction is the microseconds' digits up to the last that is not a zero. */
  predicate IsTrimmed(fraction: string, micros: int)
    requires 0 <= micros < 1_000_000
  {
    1 <= |fraction| <= 6 && fraction[|fraction| - 1] != '0' && fraction + Zeros(6 - |fraction|) == Micros(micros)
  }

  /** What is written has no fraction for whole seconds, and none that ends in a zero. */
  lemma WritesNoZeros(i: Instant)
    requires ValidInstant(i)
    ensures i.micros == 0 ==> Rfc3339(TextOf(i)) == Stamp(i.date, i.second) + "Z"
    ensures i.micros != 0 ==>
              exists fraction :: IsTrimmed(fraction, i.micros)
                                 && Rfc3339(TextOf(i)) == Stamp(i.date, i.second) + ("." + fraction) + "Z"
  {
    hide Stamp, Micros, TrimZeros, Rfc3339, TextOf, ValidDate, Zeros;
    Written(i);
    TrimmedMicros(i.micros);
    var stamp := Stamp(i.date, i.second);
    assert stamp + "" == stamp;
  }

  lemma Written(i: Instant)
    requires ValidInstant(i)
    ensures var fraction := TrimZeros(Micros(i.micros));
            Rfc3339(TextOf(i)) == Stamp(i.date, i.second) + (if fraction == "" then "" else "." + fraction) + "Z"
  {
    hide Stamp, Micros, TrimZeros;
    StampLength(i.date, i.second);
    Slices(Stamp(i.date, i.second), Micros(i.micros));
  }

  lemma TrimmedMicros(n: int)
    requires 0 <= n < 1_000_000
    ensures if n == 0 then TrimZeros(Micros(n)) == "" else IsTrimmed(TrimZeros(Micros(n)), n)
  {
    hide Micros, TrimZeros;
    var six := Micros(n);
    var fraction := TrimZeros(six);
    TrimPads(six);
    TrimEnds(six);
    MicrosAreZeros(n);
    ZerosAre(6);
    if fraction == "" {
      assert "" + Zeros(6) == Zeros(6);
    } else {
      assert six[|fraction| - 1] == fraction[|fraction| - 1];
    }
  }

  lemma {:induction false} TrimEnds(s: string)
    ensures TrimZeros(s) == "" || TrimZeros(s)[|TrimZeros(s)| - 1] != '0'
  {
    if s != "" && s[|s| - 1] == '0' {
      TrimEnds(s[..|s| - 1]);
    }
  }

  lemma MicrosAreZeros(n: int)
    requires 0 <= n < 1_000_000
    ensures n == 0 <==> Micros(n) == Zeros(6)
  {
    ZerosAre(6);
    var six := Micros(n);
    if n == 0 {
      assert forall k :: 0 <= k < 6 ==> six[k] == '0';
    } else if six == Zeros(6) {
      assert Two(n / 10000) == six[..2] && Two(n / 100 % 100) == six[2..4] && Two(n % 100) == six[4..];
      TwoZeros(n / 10000);
      TwoZeros(n / 100 % 100);
      TwoZeros(n % 100);
    }
  }

  lemma TwoZeros(n: int)
    requires 0 <= n < 100
    ensures Two(n)[0] == '0' && Two(n)[1] == '0' ==> n == 0
  {
  }

  lemma Slices(stamp: string, six: string)
    requires |stamp| == 19 && |six| == 6
    ensures var text := stamp + ("." + (six + "Z"));
            text[..19] == stamp && text[20..26] == six && |text| == 27
  {
  }

  lemma ReadBack(i: Instant, fraction: string)
    requires ValidInstant(i) && SixDigits(fraction) == Micros(i.micros)
    requires ReadFraction((if fraction == "" then "" else "." + fraction) + "Z") == Some((fraction, "Z"))
    ensures ParseOccurredAt(Stamp(i.date, i.second) + (if fraction == "" then "" else "." + fraction) + "Z") == At(TextOf(i))
  {
    hide Stamp, Clock, ReadDate, ReadClock, ReadFraction, Micros, DayNumber, Expect, SixDigits, DaysIn;
    var tail := (if fraction == "" then "" else "." + fraction) + "Z";
    var text := Stamp(i.date, i.second) + tail;
    ReadsDate(i.date, i.second, tail);
    Expects('T', Clock(i.second) + tail);
    ReadsClock(i.second, tail);
    var p := Parts(i.date, i.second / 3600, i.second / 60 % 60, i.second % 60, fraction, None);
    assert Read(text) == Some(p);
    SameSecond(i.second);
    assert Shifted(i.date, 0) == i.date;
    assert text == Stamp(i.date, i.second) + (if fraction == "" then "" else "." + fraction) + "Z";
  }

  lemma SameSecond(second: int)
    requires 0 <= second < DAY_SECONDS
    ensures second / 3600 * 3600 + second / 60 % 60 * 60 + second % 60 == second
    ensures second / 3600 <= 23 && second / DAY_SECONDS == 0 && second % DAY_SECONDS == second
  {
    var m := second / 60;
    assert second == m * 60 + second % 60 && m == m / 60 * 60 + m % 60;
  }

  // ---------------------------------------------------------------- What can be read

  /** Parts whose numbers fit the digits they are written in. */
  predicate Writable(p: Parts) {
    && 0 <= p.date.year <= 9999 && 0 <= p.date.month < 100 && 0 <= p.date.day < 100
    && 0 <= p.hour < 100 && 0 <= p.minute < 100 && 0 <= p.second < 100 && AreDigits(p.fraction)
    && (p.offset.Some? ==> 0 <= p.offset.value.hours < 100 && 0 <= p.offset.value.minutes < 100)
  }

  /** How text may be spelled: an hour in one digit, a comma before the fraction. */
  datatype Spelling = Spelling(short: bool, comma: bool)

  function HourText(hour: int, short: bool): string
    requires 0 <= hour < 100 && (short ==> hour < 10)
  {
    if short then [DigitChar(hour)] else Two(hour)
  }

  function FractionText(fraction: string, comma: bool): string {
    if fraction == "" then "" else [if comma then ',' else '.'] + fraction
  }

  function ZoneText(offset: Option<Offset>): string
    requires offset.Some? ==> 0 <= offset.value.hours < 100 && 0 <= offset.value.minutes < 100
  {
    if offset.None? then "Z"
    else [if offset.value.behind then '-' else '+'] + (Two(offset.value.hours) + (":" + Two(offset.value.minutes)))
  }

  function DateText(d: Date, rest: string): string
    requires 0 <= d.year <= 9999 && 0 <= d.month < 100 && 0 <= d.day < 100
  {
    Two(d.year / 100) + (Two(d.year % 100) + ("-" + (Two(d.month) + ("-" + (Two(d.day) + rest)))))
  }

  function ClockText(p: Parts, short: bool, rest: string): string
    requires Writable(p) && (short ==> p.hour < 10)
  {
    HourText(p.hour, short) + (":" + (Two(p.minute) + (":" + (Two(p.second) + rest))))
  }

  predicate Spells(s: Spelling, p: Parts) {
    Writable(p) && (s.short ==> p.hour < 10)
  }

  function PartsText(p: Parts, s: Spelling): string
    requires Spells(s, p)
  {
    DateText(p.date, "T" + ClockText(p, s.short, FractionText(p.fraction, s.comma) + ZoneText(p.offset)))
  }

  lemma TakesHour(hour: int, short: bool, rest: string)
    requires 0 <= hour < 100 && (short ==> hour < 10)
    ensures TakeHour(HourText(hour, short) + (":" + rest)) == Some((hour, ":" + rest))
  {
    var text := HourText(hour, short) + (":" + rest);
    if short {
      assert text[1..] == ":" + rest;
    } else {
      TakesTwo(hour, ":" + rest);
    }
  }

  lemma ReadsDateText(d: Date, rest: string)
    requires 0 <= d.year <= 9999 && 0 <= d.month < 100 && 0 <= d.day < 100
    ensures ReadDate(DateText(d, rest)) == Some((d, rest))
  {
    hide TakeTwo, Expect, Two, TakeHour;
    var month := Two(d.day) + rest;
    var year := Two(d.month) + ("-" + month);
    TakesTwo(d.year / 100, Two(d.year % 100) + ("-" + year));
    TakesTwo(d.year % 100, "-" + year);
    Expects('-', year);
    TakesTwo(d.month, "-" + month);
    Expects('-', month);
    TakesTwo(d.day, rest);
  }

  lemma ReadsClockText(p: Parts, short: bool, rest: string)
    requires Writable(p) && (short ==> p.hour < 10)
    ensures ReadClock(ClockText(p, short, rest)) == Some((p.hour, p.minute, p.second, rest))
  {
    hide TakeTwo, Expect, Two, TakeHour, HourText;
    var minute := Two(p.minute) + (":" + (Two(p.second) + rest));
    TakesHour(p.hour, short, minute);
    Expects(':', minute);
    TakesTwo(p.minute, ":" + (Two(p.second) + rest));
    Expects(':', Two(p.second) + rest);
    TakesTwo(p.second, rest);
  }

  lemma ReadsFractionText(fraction: string, comma: bool, zone: string)
    requires AreDigits(fraction) && zone != "" && !IsDigit(zone[0]) && zone[0] != '.' && zone[0] != ','
    ensures ReadFraction(FractionText(fraction, comma) + zone) == Some((fraction, zone))
  {
    if fraction == "" {
      assert "" + zone == zone;
    } else {
      var text := FractionText(fraction, comma) + zone;
      assert text[1..] == fraction + zone;
      AllDigits(fraction, zone);
      assert text[1..1 + |fraction|] == fraction && text[1 + |fraction|..] == zone;
    }
  }

  lemma ReadsZoneText(offset: Option<Offset>)
    requires offset.Some? ==> 0 <= offset.value.hours < 100 && 0 <= offset.value.minutes < 100
    ensures ReadZone(ZoneText(offset)) == Some(offset)
    ensures var zone := ZoneText(offset); zone != "" && !IsDigit(zone[0]) && zone[0] != '.' && zone[0] != ','
  {
    hide TakeTwo, Expect, Two;
    if offset.Some? {
      var Offset(behind, hours, minutes) := offset.value;
      var zone := ZoneText(offset);
      assert zone[1..] == Two(hours) + (":" + Two(minutes)) && zone != "Z";
      TakesTwo(hours, ":" + Two(minutes));
      Expects(':', Two(minutes));
      TakesTwo(minutes, "");
      assert Two(minutes) + "" == Two(minutes);
    }
  }

  /** Text written in any of its spellings reads back as its parts. */
  lemma ReadInverts(p: Parts, s: Spelling)
    requires Spells(s, p)
    ensures Read(PartsText(p, s)) == Some(p)
  {
    hide ReadDate, ReadClock, ReadFraction, ReadZone, DateText, ClockText, FractionText, ZoneText, Expect;
    var tail := FractionText(p.fraction, s.comma) + ZoneText(p.offset);
    ReadsDateText(p.date, "T" + ClockText(p, s.short, tail));
    Expects('T', ClockText(p, s.short, tail));
    ReadsClockText(p, s.short, tail);
    ReadsZoneText(p.offset);
    ReadsFractionText(p.fraction, s.comma, ZoneText(p.offset));
  }

  /** Parts as they are written are refused exactly when a number is out of its range: no
      such month or day, an hour past 23, a minute or second past 59, or an offset with more
      than 24 hours or 60 minutes. */
  lemma GarbledIff(p: Parts, s: Spelling)
    requires Spells(s, p)
    ensures ParseOccurredAt(PartsText(p, s)) == Garbled
            <==> || p.date.month < 1 || p.date.month > 12 || p.date.day < 1 || p.date.day > DaysIn(p.date.year, p.date.month)
                 || p.hour > 23 || p.minute > 59 || p.second > 59
                 || (p.offset.Some? && (p.offset.value.hours > 24 || p.offset.value.minutes > 60))
  {
    hide Read, PartsText, InstantAt, DaysIn, AreDigits;
    ReadInverts(p, s);
    if InRange(p) {
      NotGarbled(p);
    }
  }

  lemma NotGarbled(p: Parts)
    requires InRange(p)
    ensures !InstantAt(p).Garbled?
  {
    hide InRange, ValidDate, UtcDate, UtcSecond, Stamp, SixDigits;
    UtcDateValid(p);
  }

  lemma TookTwo(text: string)
    requires TakeTwo(text).Some?
    ensures var (n, rest) := TakeTwo(text).value;
            0 <= n < 100 && text == Two(n) + rest
  {
  }

  lemma TookHour(text: string) returns (short: bool)
    requires TakeHour(text).Some?
    ensures var (n, rest) := TakeHour(text).value;
            0 <= n < 100 && (short ==> n < 10) && text == HourText(n, short) + rest
  {
    short := text[1] == ':';
    if !short {
      TookTwo(text);
    }
  }

  lemma Expected(text: string, c: char)
    requires Expect(text, c).Some?
    ensures text == [c] + Expect(text, c).value
  {
  }

  lemma DateTextRead(text: string)
    requires ReadDate(text).Some?
    ensures var (d, rest) := ReadDate(text).value;
            0 <= d.year <= 9999 && 0 <= d.month < 100 && 0 <= d.day < 100 && text == DateText(d, rest)
  {
    hide TakeTwo, Expect, Two, TakeHour;
    TookTwo(text);
    var year := TakeTwo(text).value.1;
    TookTwo(year);
    var dash := TakeTwo(year).value.1;
    Expected(dash, '-');
    var month := Expect(dash, '-').value;
    TookTwo(month);
    var dash2 := TakeTwo(month).value.1;
    Expected(dash2, '-');
    TookTwo(Expect(dash2, '-').value);
  }

  lemma ClockTextRead(text: string) returns (short: bool)
    requires ReadClock(text).Some?
    ensures var (hour, minute, second, rest) := ReadClock(text).value;
            && 0 <= hour < 100 && 0 <= minute < 100 && 0 <= second < 100 && (short ==> hour < 10)
            && text == HourText(hour, short) + (":" + (Two(minute) + (":" + (Two(second) + rest))))
  {
    hide TakeTwo, Expect, Two, TakeHour, HourText;
    short := TookHour(text);
    var colon := TakeHour(text).value.1;
    Expected(colon, ':');
    var minute := Expect(colon, ':').value;
    TookTwo(minute);
    var colon2 := TakeTwo(minute).value.1;
    Expected(colon2, ':');
    TookTwo(Expect(colon2, ':').value);
  }

  lemma FractionTextRead(text: string) returns (comma: bool)
    requires ReadFraction(text).Some?
    ensures var (fraction, rest) := ReadFraction(text).value;
            AreDigits(fraction) && text == FractionText(fraction, comma) + rest
  {
    comma := text != "" && text[0] == ',';
    var (fraction, rest) := ReadFraction(text).value;
    if fraction == "" {
      assert "" + text == text;
    } else {
      var n := DigitRun(text[1..]);
      assert text[1..1 + n] == text[1..][..n] && text == [text[0]] + fraction + rest;
    }
  }

  lemma ZoneTextRead(text: string)
    requires ReadZone(text).Some?
    ensures var offset := ReadZone(text).value;
            (offset.Some? ==> 0 <= offset.value.hours < 100 && 0 <= offset.value.minutes < 100) && text == ZoneText(offset)
  {
    hide TakeTwo, Expect, Two;
    if text != "Z" {
      assert text == [text[0]] + text[1..];
      TookTwo(text[1..]);
      var colon := TakeTwo(text[1..]).value.1;
      Expected(colon, ':');
      var minutes := Expect(colon, ':').value;
      TookTwo(minutes);
      assert Two(TakeTwo(minutes).value.0) + "" == Two(TakeTwo(minutes).value.0);
    }
  }

  /** Only such text reads: whatever does is its parts written in one of the spellings. */
  lemma OnlySpellingsRead(text: string) returns (s: Spelling)
    requires Read(text).Some?
    ensures Spells(s, Read(text).value) && text == PartsText(Read(text).value, s)
  {
    hide ReadDate, ReadClock, ReadFraction, ReadZone, FractionText, ZoneText, Expect, HourText, Two;
    DateTextRead(text);
    var date := ReadDate(text).value.1;
    Expected(date, 'T');
    var clock := Expect(date, 'T').value;
    var short := ClockTextRead(clock);
    var fraction := ReadClock(clock).value.3;
    var comma := FractionTextRead(fraction);
    ZoneTextRead(ReadFraction(fraction).value.1);
    s := Spelling(short, comma);
  }

  // ---------------------------------------------------------------- The order of Instants

  lemma {:induction false} BelowConcat(a: string, b: string, x: string, y: string)
    requires |a| == |b|
    ensures NameBelow(a + x, b + y) <==> NameBelow(a, b) || (a == b && NameBelow(x, y))
  {
    if a == "" {
      assert a + x == x && b + y == y;
    } else {
      assert (a + x)[1..] == a[1..] + x && (b + y)[1..] == b[1..] + y;
      BelowConcat(a[1..], b[1..], x, y);
      assert a == [a[0]] + a[1..] && b == [b[0]] + b[1..];
    }
  }

  lemma TwoBelow(n: int, m: int)
    requires 0 <= n < 100 && 0 <= m < 100
    ensures NameBelow(Two(n), Two(m)) <==> n < m
    ensures Two(n) == Two(m) <==> n == m
  {
    hide NameBelow;
    var a, b := Two(n), Two(m);
    assert a == [a[0]] + [a[1]] && b == [b[0]] + [b[1]];
    BelowConcat([a[0]], [b[0]], [a[1]], [b[1]]);
    OneBelow(a[0], b[0]);
    OneBelow(a[1], b[1]);
    assert a[0] as int - '0' as int == n / 10 && a[1] as int - '0' as int == n % 10;
    assert b[0] as int - '0' as int == m / 10 && b[1] as int - '0' as int == m % 10;
    assert [a[0]] == [b[0]] <==> a[0] == b[0];
    if n == m {
    } else if n / 10 == m / 10 {
      assert a[1] != b[1];
    } else {
      assert a[0] != b[0];
    }
  }

  lemma OneBelow(c: char, d: char)
    ensures NameBelow([c], [d]) <==> c < d
  {
    assert [c][1..] == "" && [d][1..] == "";
    assert !NameBelow("", "");
  }

  /** Two digits before other text: the numbers decide, then the text. */
  lemma TwoThen(n: int, m: int, x: string, y: string)
    requires 0 <= n < 100 && 0 <= m < 100
    ensures NameBelow(Two(n) + x, Two(m) + y) <==> n < m || (n == m && NameBelow(x, y))
  {
    TwoBelow(n, m);
    BelowConcat(Two(n), Two(m), x, y);
  }

  lemma SameThen(c: char, x: string, y: string)
    ensures NameBelow([c] + x, [c] + y) <==> NameBelow(x, y)
  {
    BelowConcat([c], [c], x, y);
    NamesTotal([c], [c]);
  }

  predicate ClockBefore(a: int, b: int) {
    || a / 3600 < b / 3600
    || (a / 3600 == b / 3600 && (a / 60 % 60 < b / 60 % 60 || (a / 60 % 60 == b / 60 % 60 && a % 60 < b % 60)))
  }

  lemma ClockOrder(a: int, b: int, x: string, y: string)
    requires 0 <= a < DAY_SECONDS && 0 <= b < DAY_SECONDS
    ensures NameBelow(Clock(a) + x, Clock(b) + y) <==> a < b || (a == b && NameBelow(x, y))
  {
    hide NameBelow, Two;
    var ma, mb := Two(a % 60) + x, Two(b % 60) + y;
    var ha, hb := Two(a / 60 % 60) + (":" + ma), Two(b / 60 % 60) + (":" + mb);
    assert Clock(a) + x == Two(a / 3600) + (":" + ha) && Clock(b) + y == Two(b / 3600) + (":" + hb);
    TwoThen(a / 3600, b / 3600, ":" + ha, ":" + hb);
    SameThen(':', ha, hb);
    TwoThen(a / 60 % 60, b / 60 % 60, ":" + ma, ":" + mb);
    SameThen(':', ma, mb);
    TwoThen(a % 60, b % 60, x, y);
    ClockIsOrder(a, b);
  }

  lemma ClockIsOrder(a: int, b: int)
    requires 0 <= a < DAY_SECONDS && 0 <= b < DAY_SECONDS
    ensures ClockBefore(a, b) <==> a < b
    ensures a == b <==> a / 3600 == b / 3600 && a / 60 % 60 == b / 60 % 60 && a % 60 == b % 60
  {
    SameSecond(a);
    SameSecond(b);
  }

  lemma StampOrder(a: Instant, b: Instant, x: string, y: string)
    requires ValidInstant(a) && ValidInstant(b)
    ensures NameBelow(Stamp(a.date, a.second) + x, Stamp(b.date, b.second) + y)
            <==> DateBefore(a.date, b.date)
                 || (a.date == b.date && (a.second < b.second || (a.second == b.second && NameBelow(x, y))))
  {
    hide NameBelow, Two, Clock, DaysIn;
    DaysFit(a.date);
    DaysFit(b.date);
    var da, db := "T" + (Clock(a.second) + x), "T" + (Clock(b.second) + y);
    var ma, mb := Two(a.date.day) + da, Two(b.date.day) + db;
    var ya, yb := Two(a.date.month) + ("-" + ma), Two(b.date.month) + ("-" + mb);
    assert Stamp(a.date, a.second) + x == Two(a.date.year / 100) + (Two(a.date.year % 100) + ("-" + ya));
    assert Stamp(b.date, b.second) + y == Two(b.date.year / 100) + (Two(b.date.year % 100) + ("-" + yb));
    TwoThen(a.date.year / 100, b.date.year / 100, Two(a.date.year % 100) + ("-" + ya), Two(b.date.year % 100) + ("-" + yb));
    TwoThen(a.date.year % 100, b.date.year % 100, "-" + ya, "-" + yb);
    SameThen('-', ya, yb);
    TwoThen(a.date.month, b.date.month, "-" + ma, "-" + mb);
    SameThen('-', ma, mb);
    TwoThen(a.date.day, b.date.day, da, db);
    SameThen('T', Clock(a.second) + x, Clock(b.second) + y);
    ClockOrder(a.second, b.second, x, y);
  }

  lemma DaysFit(d: Date)
    requires ValidDate(d)
    ensures 1 <= d.day <= 31
  {
  }

  lemma MicrosOrder(a: int, b: int)
    requires 0 <= a < 1_000_000 && 0 <= b < 1_000_000
    ensures NameBelow("." + (Micros(a) + "Z"), "." + (Micros(b) + "Z")) <==> a < b
  {
    hide NameBelow, Two;
    var xa, xb := Two(a % 100) + "Z", Two(b % 100) + "Z";
    var ya, yb := Two(a / 100 % 100) + xa, Two(b / 100 % 100) + xb;
    assert Micros(a) + "Z" == Two(a / 10000) + ya && Micros(b) + "Z" == Two(b / 10000) + yb;
    SameThen('.', Micros(a) + "Z", Micros(b) + "Z");
    TwoThen(a / 10000, b / 10000, ya, yb);
    TwoThen(a / 100 % 100, b / 100 % 100, xa, xb);
    TwoThen(a % 100, b % 100, "Z", "Z");
    NamesTotal("Z", "Z");
    MicroParts(a);
    MicroParts(b);
  }

  lemma MicroParts(n: int)
    requires 0 <= n
    ensures n == n / 10000 * 10000 + n / 100 % 100 * 100 + n % 100
  {
    var h := n / 100;
    assert n == h * 100 + n % 100 && h == h / 100 * 100 + h % 100;
  }

  /** Instants sort as text in the order of time. */
  lemma TextOrderIsTimeOrder(a: Instant, b: Instant)
    requires ValidInstant(a) && ValidInstant(b)
    ensures NameBelow(TextOf(a), TextOf(b))
            <==> Moment(a.date, a.second) < Moment(b.date, b.second)
                 || (Moment(a.date, a.second) == Moment(b.date, b.second) && a.micros < b.micros)
  {
    hide NameBelow, Stamp, Micros, DayNumber, DaysIn;
    StampOrder(a, b, "." + (Micros(a.micros) + "Z"), "." + (Micros(b.micros) + "Z"));
    MicrosOrder(a.micros, b.micros);
    if DateBefore(a.date, b.date) {
      DatesInOrder(a.date, b.date);
    } else if DateBefore(b.date, a.date) {
      DatesInOrder(b.date, a.date);
    }
  }
}
