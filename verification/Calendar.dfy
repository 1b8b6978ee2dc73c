/** The civil-calendar conversion behind BLF header timestamps. */
module Calendar {
  import opened Bytes
  import opened Wrappers

  /** Rust's integer division, which truncates towards zero. */
  function TruncDiv(a: int, b: int): int
    requires b > 0
  {
    if a >= 0 then a / b else -((-a) / b)
  }

  datatype Civil = Civil(year: int, month: int, day: int)

  /** `civil_from_days` before its year is cast to a machine integer. */
  function CivilFromDays(days: int): Civil {
    var z := days + 719_468;
    var era := TruncDiv(if z >= 0 then z else z - 146_096, 146_097);
    CivilInEra(era, z - era * 146_097)
  }

  /** The date of day `doe` of an era of 400 years. */
  function CivilInEra(era: int, doe: int): Civil {
    var yoe := TruncDiv(doe - TruncDiv(doe, 1460) + TruncDiv(doe, 36_524) - TruncDiv(doe, 146_096), 365);
    var y := yoe + era * 400;
    var doy := doe - (365 * yoe + TruncDiv(yoe, 4) - TruncDiv(yoe, 100));
    var mp := TruncDiv(5 * doy + 2, 153);
    var d := doy - TruncDiv(153 * mp + 2, 5) + 1;
    var m := if mp < 10 then mp + 3 else mp - 9;
    Civil(if m <= 2 then y + 1 else y, m, d)
  }

  function DaysFromCivil(c: Civil): int {
    var y := if c.month <= 2 then c.year - 1 else c.year;
    var era := TruncDiv(if y >= 0 then y else y - 399, 400);
    var yoe := y - era * 400;
    var mp := (c.month + 9) % 12;
    var doy := TruncDiv(153 * mp + 2, 5) + c.day - 1;
    var doe := yoe * 365 + TruncDiv(yoe, 4) - TruncDiv(yoe, 100) + doy;
    era * 146_097 + doe - 719_468
  }

  predicate IsLeapYear(y: int) {
    (y % 4 == 0 && y % 100 != 0) || y % 400 == 0
  }

  function DaysInMonth(y: int, m: int): int {
    if m == 1 || m == 3 || m == 5 || m == 7 || m == 8 || m == 10 || m == 12 then 31
    else if m == 4 || m == 6 || m == 9 || m == 11 then 30
    else if m == 2 then (if IsLeapYear(y) then 29 else 28)
    else 0
  }

  predicate IsDate(c: Civil) {
    1 <= c.month <= 12 && 1 <= c.day <= DaysInMonth(c.year, c.month)
  }

  /** The reference calendar: the Gregorian day after a date. */
  function NextDay(c: Civil): Civil {
    if c.day < DaysInMonth(c.year, c.month) then c.(day := c.day + 1)
    else if c.month < 12 then Civil(c.year, c.month + 1, 1)
    else Civil(c.year + 1, 1, 1)
  }

  // ----- Days of a 400-year era -----

  /** Days before year `yoe` of an era whose years start on the first of March. */
  function DaysBeforeYear(yoe: int): int {
    365 * yoe + yoe / 4 - yoe / 100
  }

  /** The length of year `yoe` of an era; the leap day is its last day. */
  function YearLength(yoe: int): int {
    if IsLeapYear(yoe + 1) then 366 else 365
  }

  function YearOfEra(doe: int): int {
    (doe - doe / 1460 + doe / 36_524 - doe / 146_096) / 365
  }

  /** A day of an era as century, olympiad, year and day of year. */
  ghost predicate Splits(doe: int, c: int, q: int, r: int, doy: int) {
    && 0 <= c <= 3 && 0 <= q <= 24 && 0 <= r <= 3
    && 0 <= doy < YearLength(100 * c + 4 * q + r)
    && doe == 36_524 * c + 1461 * q + 365 * r + doy
  }

  lemma SplitExists(doe: int) returns (c: int, q: int, r: int, doy: int)
    requires 0 <= doe <= 146_096
    ensures Splits(doe, c, q, r, doy)
  {
    c := if doe / 36_524 <= 3 then doe / 36_524 else 3;
    var rest := doe - 36_524 * c;
    q := rest / 1461;
    var left := rest - 1461 * q;
    r := if left / 365 <= 3 then left / 365 else 3;
    doy := left - 365 * r;
  }

  lemma SplitYear(doe: int, c: int, q: int, r: int, doy: int)
    requires Splits(doe, c, q, r, doy)
    ensures YearOfEra(doe) == 100 * c + 4 * q + r
    ensures DaysBeforeYear(YearOfEra(doe)) == doe - doy
  {
    var t := 24 * c + q + 365 * r + doy;
    var e := if t >= 1460 then 1 else 0;
    assert doe == 1460 * (25 * c + q) + t;
    Quotients(doe, 25 * c + q + e);
    CenturyOf(doe, c);
    YearsOf(100 * c + 4 * q + r, doy - e);
    assert doe - (25 * c + q + e) + c == 365 * (100 * c + 4 * q + r) + (doy - e);
  }

  lemma Quotients(doe: int, k: int)
    requires 1460 * k <= doe < 1460 * (k + 1)
    ensures doe / 1460 == k
  {
  }

  lemma YearsOf(years: int, days: int)
    requires 0 <= days < 365
    ensures (365 * years + days) / 365 == years
  {
  }

  lemma CenturyOf(doe: int, c: int)
    requires 0 <= c <= 3 && 36_524 * c <= doe <= 146_096
    requires doe < 36_524 * (c + 1) || (c == 3 && doe == 146_096)
    ensures doe / 36_524 - doe / 146_096 == c
  {
  }

  lemma YearOfEraBounds(doe: int)
    requires 0 <= doe <= 146_096
    ensures 0 <= YearOfEra(doe) <= 399
    ensures 0 <= doe - DaysBeforeYear(YearOfEra(doe)) < YearLength(YearOfEra(doe))
  {
    var c, q, r, doy := SplitExists(doe);
    SplitYear(doe, c, q, r, doy);
  }

  /** The year of an era is the only one whose span holds the day. */
  lemma YearOfEraUnique(doe: int, yoe: int)
    requires 0 <= doe <= 146_096 && 0 <= yoe <= 399
    requires 0 <= doe - DaysBeforeYear(yoe) < YearLength(yoe)
    ensures YearOfEra(doe) == yoe
  {
    var c, q, r := yoe / 100, yoe % 100 / 4, yoe % 4;
    assert yoe == 100 * c + 4 * q + r;
    SplitYear(doe, c, q, r, doe - DaysBeforeYear(yoe));
  }

  // ----- Dates as years that start in March -----

  /** Day `doy` of the year that starts on the first of March of year `y`. */
  function FromYearDay(y: int, doy: int): Civil {
    var mp := (5 * doy + 2) / 153;
    var m := if mp < 10 then mp + 3 else mp - 9;
    Civil(if m <= 2 then y + 1 else y, m, doy - (153 * mp + 2) / 5 + 1)
  }

  function MarchYear(c: Civil): int {
    if c.month <= 2 then c.year - 1 else c.year
  }

  function DayOfMarchYear(c: Civil): int {
    (153 * ((c.month + 9) % 12) + 2) / 5 + c.day - 1
  }

  /** The first day of month `mp`, counted from March. */
  function MonthStart(mp: int): int {
    (153 * mp + 2) / 5
  }

  lemma MonthOfDay(doy: int, mp: int)
    ensures (5 * doy + 2) / 153 == mp <==> MonthStart(mp) <= doy < MonthStart(mp + 1)
  {
  }

  /** Every month but February spans the days up to the next month's start. */
  lemma MonthLength(y: int, mp: int)
    requires 0 <= mp <= 10
    ensures MonthStart(mp + 1) - MonthStart(mp) == DaysInMonth(y, if mp < 10 then mp + 3 else mp - 9)
    ensures 0 <= MonthStart(mp) < MonthStart(mp + 1) <= 337
  {
  }

  lemma YearDayIsDate(y: int, doy: int)
    requires 0 <= doy < YearLength(y)
    ensures IsDate(FromYearDay(y, doy))
    ensures MarchYear(FromYearDay(y, doy)) == y && DayOfMarchYear(FromYearDay(y, doy)) == doy
  {
    hide IsLeapYear;
    var mp := (5 * doy + 2) / 153;
    MonthOfDay(doy, mp);
    if mp <= 10 {
      MonthLength(y, mp);
    }
  }

  lemma DateIsYearDay(c: Civil)
    requires IsDate(c)
    ensures 0 <= DayOfMarchYear(c) < YearLength(MarchYear(c))
    ensures c == FromYearDay(MarchYear(c), DayOfMarchYear(c))
  {
    hide IsLeapYear;
    var mp := (c.month + 9) % 12;
    assert mp == if c.month <= 2 then c.month + 9 else c.month - 3;
    if mp <= 10 {
      MonthLength(c.year, mp);
    }
    MonthOfDay(DayOfMarchYear(c), mp);
  }

  lemma NextYearDay(y: int, doy: int)
    requires 0 <= doy < YearLength(y)
    ensures NextDay(FromYearDay(y, doy))
         == if doy + 1 < YearLength(y) then FromYearDay(y, doy + 1) else FromYearDay(y + 1, 0)
  {
    hide IsLeapYear;
    var mp := (5 * doy + 2) / 153;
    MonthOfDay(doy, mp);
    if mp <= 10 {
      MonthLength(y, mp);
      MonthLength(y + 1, mp);
    }
    MonthOfDay(doy + 1, if doy + 1 < MonthStart(mp + 1) then mp else mp + 1);
  }

  lemma CivilShape(days: int)
    ensures var z := days + 719_468;
            var yoe := YearOfEra(z % 146_097);
            var doy := z % 146_097 - DaysBeforeYear(yoe);
            && 0 <= doy < YearLength(z / 146_097 * 400 + yoe)
            && 0 <= yoe <= 399
            && CivilFromDays(days) == FromYearDay(z / 146_097 * 400 + yoe, doy)
  {
    hide CivilInEra, YearOfEra, YearLength, DaysBeforeYear, FromYearDay;
    var z := days + 719_468;
    assert TruncDiv(if z >= 0 then z else z - 146_096, 146_097) == z / 146_097;
    YearOfEraBounds(z % 146_097);
    InEraShape(z / 146_097, z % 146_097);
    var yoe := YearOfEra(z % 146_097);
    SameYearLength(z / 146_097 * 400 + yoe);
  }

  lemma InEraShape(era: int, doe: int)
    requires 0 <= doe <= 146_096
    ensures CivilInEra(era, doe) == FromYearDay(era * 400 + YearOfEra(doe), doe - DaysBeforeYear(YearOfEra(doe)))
  {
    hide YearLength, FromYearDay, TruncDiv;
    YearOfEraBounds(doe);
    TruncDivIsFloor(doe);
    TruncDivIsFloor(doe - doe / 1460 + doe / 36_524 - doe / 146_096);
    TruncDivIsFloor(YearOfEra(doe));
    var yoe := TruncDiv(doe - TruncDiv(doe, 1460) + TruncDiv(doe, 36_524) - TruncDiv(doe, 146_096), 365);
    var doy := doe - (365 * yoe + TruncDiv(yoe, 4) - TruncDiv(yoe, 100));
    assert yoe == YearOfEra(doe) && doy == doe - DaysBeforeYear(yoe);
    InYearShape(yoe + era * 400, doy);
  }

  lemma TruncDivIsFloor(a: int)
    requires a >= 0
    ensures forall b: int :: b > 0 ==> TruncDiv(a, b) == a / b
  {
  }

  lemma InYearShape(y: int, doy: int)
    requires doy >= 0
    ensures var mp := TruncDiv(5 * doy + 2, 153);
            var m := if mp < 10 then mp + 3 else mp - 9;
            FromYearDay(y, doy) == Civil(if m <= 2 then y + 1 else y, m, doy - TruncDiv(153 * mp + 2, 5) + 1)
  {
  }

  lemma SameYearLength(y: int)
    ensures YearLength(y) == YearLength(y % 400)
  {
    LeapPeriod(y / 400, y % 400 + 1);
  }

  lemma LeapPeriod(k: int, y: int)
    ensures IsLeapYear(400 * k + y) == IsLeapYear(y)
  {
    Mod4(100 * k, y);
    Mod100(4 * k, y);
    Mod400(k, y);
  }

  lemma Mod4(k: int, x: int)
    ensures (4 * k + x) % 4 == x % 4
  {
    assert 4 * k + x == 4 * (k + x / 4) + x % 4;
  }

  lemma Mod100(k: int, x: int)
    ensures (100 * k + x) % 100 == x % 100
  {
    assert 100 * k + x == 100 * (k + x / 100) + x % 100;
  }

  lemma Mod400(k: int, x: int)
    ensures (400 * k + x) % 400 == x % 400
  {
    assert 400 * k + x == 400 * (k + x / 400) + x % 400;
  }

  /** The year after the last of an era opens the next era. */
  lemma EraStep(y: int)
    ensures if y % 400 == 399 then (y + 1) % 400 == 0 && (y + 1) / 400 == y / 400 + 1
            else (y + 1) % 400 == y % 400 + 1 && (y + 1) / 400 == y / 400
  {
  }

  lemma DaysShape(c: Civil)
    requires IsDate(c)
    ensures DaysFromCivil(c)
         == MarchYear(c) / 400 * 146_097 + DaysBeforeYear(MarchYear(c) % 400) + DayOfMarchYear(c) - 719_468
  {
    var y := MarchYear(c);
    assert TruncDiv(if y >= 0 then y else y - 399, 400) == y / 400;
  }

  lemma EraSpan(yoe: int)
    requires 0 <= yoe <= 399
    ensures 0 <= DaysBeforeYear(yoe)
    ensures if yoe == 399 then DaysBeforeYear(yoe) + YearLength(yoe) == 146_097
            else DaysBeforeYear(yoe) + YearLength(yoe) == DaysBeforeYear(yoe + 1) <= 146_096
  {
    if yoe < 399 {
      Carry4(yoe);
      Carry100(yoe);
      assert (yoe + 1) % 400 != 0;
    }
  }

  lemma Carry4(y: int)
    ensures (y + 1) / 4 == y / 4 + if (y + 1) % 4 == 0 then 1 else 0
  {
  }

  lemma Carry100(y: int)
    ensures (y + 1) / 100 == y / 100 + if (y + 1) % 100 == 0 then 1 else 0
    ensures (y + 1) % 100 == 0 ==> (y + 1) % 4 == 0
  {
  }

  lemma SpanStarts()
    ensures DaysBeforeYear(0) == 0
    ensures forall y :: YearLength(y) >= 365
  {
  }

  lemma MonthsInOrder(c: Civil, d: Civil)
    requires IsDate(c) && IsDate(d) && c.year == d.year
    requires c.month < d.month || (c.month == d.month && c.day <= d.day)
    ensures MarchYear(c) <= MarchYear(d) <= MarchYear(c) + 1
    ensures MarchYear(c) == MarchYear(d) ==> DayOfMarchYear(c) <= DayOfMarchYear(d)
  {
  }

  // ----- The calendar theorems -----

  /** Every day number converts to a real date and back to itself. */
  lemma DaysOfCivilOfDays(days: int)
    ensures IsDate(CivilFromDays(days))
    ensures DaysFromCivil(CivilFromDays(days)) == days
  {
    hide CivilFromDays, DaysFromCivil, YearOfEra, DaysBeforeYear, YearLength, FromYearDay, MarchYear, DayOfMarchYear;
    CivilShape(days);
    var z := days + 719_468;
    var yoe := YearOfEra(z % 146_097);
    YearDayIsDate(z / 146_097 * 400 + yoe, z % 146_097 - DaysBeforeYear(yoe));
    DaysShape(CivilFromDays(days));
  }

  /** Every Gregorian date, of any year, converts to a day number and back to itself. */
  lemma CivilOfDaysOfCivil(c: Civil)
    requires IsDate(c)
    ensures CivilFromDays(DaysFromCivil(c)) == c
  {
    hide CivilFromDays, DaysFromCivil, YearOfEra, DaysBeforeYear, YearLength, FromYearDay, MarchYear, DayOfMarchYear,
         IsDate;
    DaysShape(c);
    DateIsYearDay(c);
    var y, doy := MarchYear(c), DayOfMarchYear(c);
    var doe := DaysBeforeYear(y % 400) + doy;
    EraSpan(y % 400);
    SameYearLength(y);
    YearOfEraUnique(doe, y % 400);
    assert DaysFromCivil(c) + 719_468 == y / 400 * 146_097 + doe;
    CivilShape(DaysFromCivil(c));
  }

  lemma EpochDay()
    ensures CivilFromDays(0) == Civil(1970, 1, 1) && DaysFromCivil(Civil(1970, 1, 1)) == 0
  {
    hide CivilFromDays;
    CivilOfDaysOfCivil(Civil(1970, 1, 1));
  }

  /** Day 0 is the Unix epoch and each following day number is the next Gregorian date. */
  lemma CivilFollowsCalendar(days: int)
    ensures CivilFromDays(0) == Civil(1970, 1, 1)
    ensures CivilFromDays(days + 1) == NextDay(CivilFromDays(days))
  {
    hide CivilFromDays, DaysFromCivil, YearOfEra, DaysBeforeYear, YearLength, FromYearDay, NextDay, IsDate;
    var c := CivilFromDays(days);
    EpochDay();
    DaysOfCivilOfDays(days);
    NextDayIsOneLater(c);
    CivilOfDaysOfCivil(NextDay(c));
  }

  lemma NextDayIsOneLater(c: Civil)
    requires IsDate(c)
    ensures IsDate(NextDay(c)) && DaysFromCivil(NextDay(c)) == DaysFromCivil(c) + 1
  {
    hide CivilFromDays, DaysFromCivil, YearOfEra, DaysBeforeYear, YearLength, FromYearDay, MarchYear, DayOfMarchYear,
         IsDate, NextDay;
    DateIsYearDay(c);
    var y, doy := MarchYear(c), DayOfMarchYear(c);
    var y', doy' := if doy + 1 < YearLength(y) then y else y + 1, if doy + 1 < YearLength(y) then doy + 1 else 0;
    SpanStarts();
    NextYearDay(y, doy);
    YearDayIsDate(y', doy');
    DaysShape(c);
    DaysShape(NextDay(c));
    EraSpan(y % 400);
    SameYearLength(y);
    EraStep(y);
  }

  /** Later years start later. */
  lemma DaysGrowWithYear(c: Civil, d: Civil)
    requires IsDate(c) && IsDate(d) && c.year < d.year
    ensures DaysFromCivil(c) < DaysFromCivil(d)
    decreases d.year - c.year
  {
    hide CivilFromDays, DaysFromCivil, YearOfEra, DaysBeforeYear, YearLength, FromYearDay, TruncDiv;
    var last := Civil(c.year, 12, 31);
    var first := Civil(c.year + 1, 1, 1);
    NextDayIsOneLater(last);
    DaysWithinYear(c, last);
    if d.year == c.year + 1 {
      DaysWithinYear(first, d);
    } else {
      DaysGrowWithYear(first, d);
    }
  }

  lemma DaysWithinYear(c: Civil, d: Civil)
    requires IsDate(c) && IsDate(d) && c.year == d.year
    requires c.month < d.month || (c.month == d.month && c.day <= d.day)
    ensures DaysFromCivil(c) <= DaysFromCivil(d)
  {
    hide CivilFromDays, DaysFromCivil, YearOfEra, DaysBeforeYear, YearLength, FromYearDay, MarchYear, DayOfMarchYear,
         IsDate;
    DaysShape(c);
    DaysShape(d);
    DateIsYearDay(c);
    DateIsYearDay(d);
    MonthsInOrder(c, d);
    var y := MarchYear(c);
    EraSpan(y % 400);
    SameYearLength(y);
    EraStep(y);
    SpanStarts();
  }

  // ----- Header timestamps -----

  /** A header timestamp (`SYSTEMTIME`). */
  datatype Time = Time(year: u16, month: u16, dayOfWeek: u16, day: u16,
                       hour: u16, minute: u16, second: u16, milliseconds: u16)

  const NANOS_PER_SECOND := 1_000_000_000
  const NANOS_PER_MILLI := 1_000_000
  const SECONDS_PER_DAY := 86_400

  /** The wrap of a cast to `i32`. */
  function AsI32(x: int): int {
    (x + 0x8000_0000) % 0x1_0000_0000 - 0x8000_0000
  }

  /** The wrap of a cast to `u16`. */
  function AsU16(x: int): u16 {
    x % 0x1_0000
  }

  /** `nanos` counts from the Unix epoch. */
  function FromSystemTime(nanos: int): Option<Time> {
    if nanos < 0 then None
    else
      var secs := nanos / NANOS_PER_SECOND;
      var days := secs / SECONDS_PER_DAY;
      var rem := secs % SECONDS_PER_DAY;
      var date := CivilFromDays(days);
      Some(Time(AsU16(AsI32(date.year)), AsU16(date.month), AsU16((days + 4) % 7), AsU16(date.day),
                AsU16(rem / 3600), AsU16(rem % 3600 / 60), AsU16(rem % 60),
                AsU16(nanos % NANOS_PER_SECOND / NANOS_PER_MILLI)))
  }

  function DateOf(t: Time): Civil {
    Civil(t.year, t.month, t.day)
  }

  function ToSystemTime(t: Time): Option<int> {
    if || !(1 <= t.month <= 12) || t.day < 1 || t.day > DaysInMonth(t.year, t.month)
       || t.hour >= 24 || t.minute >= 60 || t.second >= 60 || t.milliseconds >= 1000
    then None
    else
      var days := DaysFromCivil(DateOf(t));
      var secs := days * SECONDS_PER_DAY + t.hour * 3600 + t.minute * 60 + t.second;
      if secs < 0 then None
      else Some(secs * NANOS_PER_SECOND + t.milliseconds * NANOS_PER_MILLI)
  }

  /**
   A system time survives the header form, truncated to the millisecond, exactly when
   its year fits the 16-bit year field. Times before the epoch have no header form.
   */
  lemma SystemTimeRoundTrip(nanos: int)
    requires nanos >= 0
    ensures ToSystemTime(FromSystemTime(nanos).value) == Some(nanos / NANOS_PER_MILLI * NANOS_PER_MILLI)
       <==> CivilFromDays(nanos / NANOS_PER_SECOND / SECONDS_PER_DAY).year <= 65_535
  {
    hide CivilFromDays, DaysFromCivil, YearOfEra, DaysBeforeYear, YearLength, FromYearDay, TruncDiv;
    hide CivilFromDays, DaysFromCivil, IsDate;
    var secs := nanos / NANOS_PER_SECOND;
    var days, rem := secs / SECONDS_PER_DAY, secs % SECONDS_PER_DAY;
    var millis := nanos % NANOS_PER_SECOND / NANOS_PER_MILLI;
    var date := CivilFromDays(days);
    var t := FromSystemTime(nanos).value;
    DaysOfCivilOfDays(days);
    EpochYear(days);
    ClockParts(rem);
    MilliParts(nanos);
    DateFits(date);
    FromSystemTimeParts(nanos);
    ToSystemTimeParts(t);
    if date.year <= 65_535 {
      assert DateOf(t) == date;
      assert days * SECONDS_PER_DAY + rem == secs;
    } else if IsDate(DateOf(t)) {
      CivilOfDaysOfCivil(DateOf(t));
      DifferentDays(DaysFromCivil(DateOf(t)), days, rem, millis, nanos);
    }
  }

  /** The parts of a header time taken from a system time. */
  lemma FromSystemTimeParts(nanos: int)
    requires nanos >= 0
    ensures var secs := nanos / NANOS_PER_SECOND;
            var rem := secs % SECONDS_PER_DAY;
            var date := CivilFromDays(secs / SECONDS_PER_DAY);
            var t := FromSystemTime(nanos).value;
            && DateOf(t) == Civil(date.year % 0x1_0000, date.month, date.day)
            && t.hour == rem / 3600 && t.minute == rem % 3600 / 60 && t.second == rem % 60
            && t.milliseconds == nanos % NANOS_PER_SECOND / NANOS_PER_MILLI
            && t.dayOfWeek == (secs / SECONDS_PER_DAY + 4) % 7
  {
    hide CivilFromDays, DaysFromCivil, IsDate, AsU16, AsI32;
    var secs := nanos / NANOS_PER_SECOND;
    var rem := secs % SECONDS_PER_DAY;
    var date := CivilFromDays(secs / SECONDS_PER_DAY);
    DaysOfCivilOfDays(secs / SECONDS_PER_DAY);
    DateFits(date);
    ClockParts(rem);
    MilliParts(nanos);
    AsU16Small(rem / 3600);
    AsU16Small(rem % 3600 / 60);
    AsU16Small(rem % 60);
    AsU16Small((secs / SECONDS_PER_DAY + 4) % 7);
    AsU16Small(nanos % NANOS_PER_SECOND / NANOS_PER_MILLI);
  }

  lemma AsU16Small(x: int)
    requires 0 <= x < 0x1_0000
    ensures AsU16(x) == x
  {
  }

  lemma DateFits(c: Civil)
    requires IsDate(c)
    ensures AsU16(c.month) == c.month && AsU16(c.day) == c.day
    ensures AsU16(AsI32(c.year)) == c.year % 0x1_0000
  {
  }

  /** The instant of a header time. */
  lemma ToSystemTimeParts(t: Time)
    ensures ToSystemTime(t).Some? ==> IsDate(DateOf(t))
    ensures && IsDate(DateOf(t)) && t.hour < 24 && t.minute < 60 && t.second < 60 && t.milliseconds < 1000
            && DaysFromCivil(DateOf(t)) >= 0
        ==> ToSystemTime(t).Some?
    ensures ToSystemTime(t).Some? ==>
              ToSystemTime(t).value
              == (DaysFromCivil(DateOf(t)) * SECONDS_PER_DAY
                  + (t.hour * 3600 + t.minute * 60 + t.second)) * NANOS_PER_SECOND
                 + t.milliseconds * NANOS_PER_MILLI
    ensures ToSystemTime(t).Some? ==> t.hour < 24 && t.minute < 60 && t.second < 60 && t.milliseconds < 1000
    ensures ToSystemTime(t).Some? ==> DaysFromCivil(DateOf(t)) >= 0
  {
    hide DaysFromCivil;
  }

  lemma EpochYear(days: int)
    requires days >= 0
    ensures CivilFromDays(days).year >= 1970
  {
    hide CivilFromDays, DaysFromCivil, YearOfEra, DaysBeforeYear, YearLength, FromYearDay, TruncDiv;
    var c := CivilFromDays(days);
    DaysOfCivilOfDays(days);
    EpochDay();
    if c.year < 1970 {
      DaysGrowWithYear(c, Civil(1970, 1, 1));
    }
  }

  lemma ClockParts(rem: int)
    requires 0 <= rem < SECONDS_PER_DAY
    ensures 0 <= rem / 3600 < 24 && 0 <= rem % 3600 / 60 < 60
    ensures rem / 3600 * 3600 + rem % 3600 / 60 * 60 + rem % 60 == rem
  {
  }

  lemma MilliParts(nanos: int)
    requires nanos >= 0
    ensures 0 <= nanos % NANOS_PER_SECOND / NANOS_PER_MILLI < 1000
    ensures nanos / NANOS_PER_SECOND * NANOS_PER_SECOND + nanos % NANOS_PER_SECOND / NANOS_PER_MILLI * NANOS_PER_MILLI
         == nanos / NANOS_PER_MILLI * NANOS_PER_MILLI
  {
    var secs, rest := nanos / NANOS_PER_SECOND, nanos % NANOS_PER_SECOND;
    var millis, left := rest / NANOS_PER_MILLI, rest % NANOS_PER_MILLI;
    WholeMillis(secs * 1000 + millis, left);
    assert nanos == (secs * 1000 + millis) * NANOS_PER_MILLI + left;
  }

  lemma WholeMillis(millis: int, left: int)
    requires 0 <= left < NANOS_PER_MILLI
    ensures (millis * NANOS_PER_MILLI + left) / NANOS_PER_MILLI == millis
  {
  }

  lemma DifferentDays(d: int, days: int, rem: int, millis: int, nanos: int)
    requires nanos >= 0 && days == nanos / NANOS_PER_SECOND / SECONDS_PER_DAY
    requires rem == nanos / NANOS_PER_SECOND % SECONDS_PER_DAY && d != days
    requires millis == nanos % NANOS_PER_SECOND / NANOS_PER_MILLI
    ensures (d * SECONDS_PER_DAY + rem) * NANOS_PER_SECOND + millis * NANOS_PER_MILLI
         != nanos / NANOS_PER_MILLI * NANOS_PER_MILLI
  {
    MilliParts(nanos);
  }

  /** A header time denotes an instant exactly when it is a real date and clock time from 1970 on. */
  lemma TimeIsValid(t: Time)
    ensures ToSystemTime(t).Some?
       <==> IsDate(DateOf(t)) && t.hour < 24 && t.minute < 60 && t.second < 60 && t.milliseconds < 1000
            && t.year >= 1970
  {
    hide CivilFromDays, DaysFromCivil, YearOfEra, DaysBeforeYear, YearLength, FromYearDay, TruncDiv;
    if IsDate(DateOf(t)) && t.hour < 24 && t.minute < 60 && t.second < 60 {
      var days := DaysFromCivil(DateOf(t));
      EpochDay();
      if t.year < 1970 {
        DaysGrowWithYear(DateOf(t), Civil(1970, 1, 1));
      } else if t.year > 1970 {
        DaysGrowWithYear(Civil(1970, 1, 1), DateOf(t));
      } else {
        DaysWithinYear(Civil(1970, 1, 1), DateOf(t));
      }
      assert t.hour * 3600 + t.minute * 60 + t.second < SECONDS_PER_DAY;
    }
  }

  /** Reading an instant back gives the same header time with its weekday recomputed. */
  lemma TimeRoundTrip(t: Time)
    requires ToSystemTime(t).Some?
    ensures FromSystemTime(ToSystemTime(t).value) == Some(t.(dayOfWeek := (DaysFromCivil(DateOf(t)) + 4) % 7))
  {
    hide CivilFromDays, DaysFromCivil, YearOfEra, DaysBeforeYear, YearLength, FromYearDay, TruncDiv;
    hide IsDate, ToSystemTime, FromSystemTime;
    var nanos := ToSystemTime(t).value;
    var days := DaysFromCivil(DateOf(t));
    var clock := t.hour * 3600 + t.minute * 60 + t.second;
    ToSystemTimeParts(t);
    CivilOfDaysOfCivil(DateOf(t));
    SplitInstant(days, clock, t.milliseconds);
    SplitClock(t.hour, t.minute, t.second);
    FromSystemTimeParts(nanos);
    FromSystemTimeSome(nanos);
  }

  lemma FromSystemTimeSome(nanos: int)
    requires nanos >= 0
    ensures FromSystemTime(nanos).Some?
  {
  }

  lemma SplitInstant(days: int, clock: int, millis: int)
    requires days >= 0 && 0 <= clock < SECONDS_PER_DAY && 0 <= millis < 1000
    ensures var nanos := (days * SECONDS_PER_DAY + clock) * NANOS_PER_SECOND + millis * NANOS_PER_MILLI;
            && nanos >= 0
            && nanos / NANOS_PER_SECOND == days * SECONDS_PER_DAY + clock
            && nanos % NANOS_PER_SECOND / NANOS_PER_MILLI == millis
            && nanos / NANOS_PER_SECOND / SECONDS_PER_DAY == days
            && nanos / NANOS_PER_SECOND % SECONDS_PER_DAY == clock
  {
  }

  lemma SplitClock(hour: int, minute: int, second: int)
    requires 0 <= hour && 0 <= minute < 60 && 0 <= second < 60
    ensures var clock := hour * 3600 + minute * 60 + second;
            clock / 3600 == hour && clock % 3600 / 60 == minute && clock % 60 == second
  {
  }
}
