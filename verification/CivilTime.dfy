/** Calendar arithmetic on day numbers counted from 1970-01-01, in the proleptic Gregorian calendar. */
module CivilTime {

  // ---- machine arithmetic --------------------------------------------------------------------------

  const WORD := 0x1_0000_0000

  /** Machine division, towards zero. */
  function TruncDiv(a: int, b: int): int
    requires b != 0
  {
    if a >= 0 then a / b else -(-a / b)
  }

  function TruncMod(a: int, b: int): int
    requires b != 0
  {
    a - TruncDiv(a, b) * b
  }

  function FloorDiv(a: int, b: int): (q: int)
    requires b != 0
  {
    var q := TruncDiv(a, b);
    if TruncMod(a, b) != 0 && (a < 0) != (b < 0) then q - 1 else q
  }

  function FloorMod(a: int, b: int): int
    requires b != 0
  {
    a - FloorDiv(a, b) * b
  }

  datatype Date = Date(y: int, m: int, d: int)

  /** What is left of a figure in an unsigned 32-bit variable. */
  function Wrap(x: int): int { x % WORD }

  /** The month counted from March: the shift by -3 is the addition of a number that wraps round to it. */
  function FromMarch(m: int): int { Wrap(m + if m > 2 then WORD - 3 else 9) }
  function FromJanuary(mp: int): int { Wrap(mp + if mp < 10 then 3 else WORD - 9) }

  function DayOfYear(m: int, d: int): int { Wrap(Wrap(153 * FromMarch(m) + 2) / 5 + d - 1) }
  function DayOfEra(yoe: int, doy: int): int { Wrap(yoe * 365 + yoe / 4 - yoe / 100 + doy) }

  function DaysFromCivil(date: Date): int {
    var y := date.y - (if date.m <= 2 then 1 else 0);
    var era := TruncDiv(if y >= 0 then y else y - 399, 400);
    var yoe := Wrap(y - era * 400);
    era * 146097 + DayOfEra(yoe, DayOfYear(date.m, date.d)) - 719468
  }

  function YearOfEra(doe: int): int { Wrap(doe - doe / 1460 + doe / 36524 - doe / 146096) / 365 }

  function CivilFromDays(days: int): Date {
    var z := days + 719468;
    var era := TruncDiv(if z >= 0 then z else z - 146096, 146097);
    var doe := Wrap(z - era * 146097);
    var yoe := YearOfEra(doe);
    var doy := Wrap(doe - (365 * yoe + yoe / 4 - yoe / 100));
    var mp := Wrap(5 * doy + 2) / 153;
    var d := Wrap(doy - (153 * mp + 2) / 5 + 1);
    var m := FromJanuary(mp);
    Date(yoe + era * 400 + (if m <= 2 then 1 else 0), m, d)
  }

  // ---- the calendar --------------------------------------------------------------------------------

  predicate IsLeap(y: int) {
    y % 4 == 0 && (y % 100 != 0 || y % 400 == 0)
  }

  function DaysInMonth(y: int, m: int): int {
    if m == 2 then (if IsLeap(y) then 29 else 28)
    else if m == 4 || m == 6 || m == 9 || m == 11 then 30
    else 31
  }

  predicate IsDate(date: Date) {
    1 <= date.m <= 12 && 1 <= date.d <= DaysInMonth(date.y, date.m)
  }

  function NextDay(date: Date): Date {
    if date.d < DaysInMonth(date.y, date.m) then date.(d := date.d + 1)
    else if date.m < 12 then Date(date.y, date.m + 1, 1)
    else Date(date.y + 1, 1, 1)
  }

  predicate Before(a: Date, b: Date) {
    a.y < b.y || (a.y == b.y && (a.m < b.m || (a.m == b.m && a.d < b.d)))
  }

  // ---- without the machine arithmetic ----------------------------------------------------------------

  lemma EraOf(y: int)
    ensures TruncDiv(if y >= 0 then y else y - 399, 400) == y / 400
    ensures TruncDiv(if y >= 0 then y else y - 146096, 146097) == y / 146097
  {
  }

  lemma Fits(x: int)
    ensures 0 <= x < WORD ==> Wrap(x) == x
    ensures WORD <= x < 2 * WORD ==> Wrap(x) == x - WORD
  {
  }

  /** Days before a month in a year that begins in March. */
  function MonthStart(m: int): int {
    (153 * (if m > 2 then m - 3 else m + 9) + 2) / 5
  }

  /** Days before a year that begins in March. */
  function YearStart(y: int): int {
    365 * y + y / 4 - y / 100 + y / 400
  }

  function MarchYear(date: Date): int {
    date.y - (if date.m <= 2 then 1 else 0)
  }

  lemma EraStart(era: int, yoe: int)
    requires 0 <= yoe < 400
    ensures (400 * era + yoe) / 400 == era
    ensures YearStart(400 * era + yoe) == era * 146097 + yoe * 365 + yoe / 4 - yoe / 100
  {
    var y := 400 * era + yoe;
    assert y / 4 == 100 * era + yoe / 4;
    assert y / 100 == 4 * era + yoe / 100;
    assert y / 400 == era;
  }

  lemma DayOfYearIs(m: int, d: int)
    requires 1 <= m <= 12 && 1 <= d <= 31
    ensures DayOfYear(m, d) == MonthStart(m) + d - 1 && 0 <= MonthStart(m) <= 337
  {
    hide Wrap;
    Fits(m + if m > 2 then WORD - 3 else 9);
    Fits(153 * FromMarch(m) + 2);
    Fits(MonthStart(m) + d - 1);
  }

  /** Counted from the March of its year. */
  lemma DaysAre(date: Date)
    requires IsDate(date)
    ensures DaysFromCivil(date) == YearStart(MarchYear(date)) + MonthStart(date.m) + date.d - 1 - 719468
  {
    hide TruncDiv, Wrap, DayOfYear, MonthStart, YearStart;
    var y, doy := MarchYear(date), MonthStart(date.m) + date.d - 1;
    var era, yoe := y / 400, y - y / 400 * 400;
    EraOf(y);
    EraStart(era, yoe);
    Fits(yoe);
    DayOfYearIs(date.m, date.d);
    Fits(yoe * 365 + yoe / 4 - yoe / 100 + doy);
  }

  lemma DivStep(y: int)
    ensures y / 4 == (y - 1) / 4 + if y % 4 == 0 then 1 else 0
    ensures y / 100 == (y - 1) / 100 + if y % 100 == 0 then 1 else 0
    ensures y / 400 == (y - 1) / 400 + if y % 400 == 0 then 1 else 0
    ensures y % 400 == 0 ==> y % 100 == 0
    ensures y % 100 == 0 ==> y % 4 == 0
  {
    QuotientSteps(y, 4);
    QuotientSteps(y, 100);
    QuotientSteps(y, 400);
    QuotientIs(y, 100, y / 400 * 4 + y % 400 / 100, y % 400 % 100);
    QuotientIs(y, 4, y / 100 * 25 + y % 100 / 4, y % 100 % 4);
  }

  lemma QuotientSteps(y: int, b: int)
    requires b > 0
    ensures y / b == (y - 1) / b + if y % b == 0 then 1 else 0
  {
    var q, r := y / b, y % b;
    assert y == q * b + r;
    if r == 0 {
      assert (q - 1) * b + (b - 1) == y - 1;
      QuotientIs(y - 1, b, q - 1, b - 1);
    } else {
      QuotientIs(y - 1, b, q, r - 1);
    }
  }

  /** A March year ends with the February of the next year, which has its 29th exactly in a leap year. */
  lemma YearLength(y: int)
    ensures YearStart(y) == YearStart(y - 1) + if IsLeap(y) then 366 else 365
  {
    DivStep(y);
  }

  /** A day on is a day more. */
  lemma NextDayIsOneMore(date: Date)
    requires IsDate(date)
    ensures IsDate(NextDay(date)) && DaysFromCivil(NextDay(date)) == DaysFromCivil(date) + 1
  {
    hide DaysFromCivil, YearStart, IsLeap;
    DaysAre(date);
    DaysAre(NextDay(date));
    YearLength(date.y);
  }

  // ---- and back ------------------------------------------------------------------------------------

  /** Days before a March year of an era. */
  function StartInEra(yoe: int): int { yoe * 365 + yoe / 4 - yoe / 100 }

  /** The last day of a March year of an era. */
  function LastInYear(yoe: int): int {
    if IsLeap(yoe + 1) then 365 else 364
  }

  /** The leap days that the division by the days of four years takes out of the day of the era. */
  lemma LeapDaysOut(c: int, q: int, j: int, doy: int)
    requires 0 <= c <= 3 && 0 <= q <= 24 && 0 <= j <= 3 && 0 <= doy <= 365 && (doy == 365 ==> j == 3)
    ensures
      var doe := 36524 * c + 1461 * q + 365 * j + doy;
      365 * (100 * c + 4 * q + j) <= doe - doe / 1460 + c < 365 * (100 * c + 4 * q + j + 1)
  {
    var doe := 36524 * c + 1461 * q + 365 * j + doy;
    var left := 24 * c + q + 365 * j + doy;
    assert doe == 1460 * (25 * c + q) + left;
    assert doe / 1460 == 25 * c + q + left / 1460;
  }

  lemma YearOfEraIs(c: int, q: int, j: int, doy: int)
    requires 0 <= c <= 3 && 0 <= q <= 24 && 0 <= j <= 3
    requires 0 <= doy <= LastInYear(100 * c + 4 * q + j)
    ensures
      var yoe := 100 * c + 4 * q + j;
      && StartInEra(yoe) == 36524 * c + 1461 * q + 365 * j
      && 0 <= StartInEra(yoe) + doy < 146097 && YearOfEra(StartInEra(yoe) + doy) == yoe
  {
    hide Wrap, IsLeap, StartInEra;
    StartIs(c, q, j);
    LastDayOfCentury(c, q, j, doy);
    LeapDaysOut(c, q, j, doy);
    var doe := 36524 * c + 1461 * q + 365 * j + doy;
    Fits(doe - doe / 1460 + c);
    var yoe, left := 100 * c + 4 * q + j, doe - doe / 1460 + c - 365 * (100 * c + 4 * q + j);
    QuotientIs(doe - doe / 1460 + c, 365, yoe, left);
  }

  lemma StartIs(c: int, q: int, j: int)
    requires 0 <= c <= 3 && 0 <= q <= 24 && 0 <= j <= 3
    ensures StartInEra(100 * c + 4 * q + j) == 36524 * c + 1461 * q + 365 * j
  {
    QuotientIs(100 * c + 4 * q + j, 4, 25 * c + q, j);
    QuotientIs(100 * c + 4 * q + j, 100, c, 4 * q + j);
  }

  lemma LastDayOfCentury(c: int, q: int, j: int, doy: int)
    requires 0 <= c <= 3 && 0 <= q <= 24 && 0 <= j <= 3
    requires 0 <= doy <= LastInYear(100 * c + 4 * q + j)
    ensures
      var doe := 36524 * c + 1461 * q + 365 * j + doy;
      0 <= doe < 146097 && doe / 36524 - doe / 146096 == c && (doy == 365 ==> j == 3)
  {
    var doe := 36524 * c + 1461 * q + 365 * j + doy;
    if c < 3 {
      CenturyIsNotLeap(c);
    }
    if doy == 365 {
      assert (100 * c + 4 * q + j + 1) % 4 == 0;
    }
  }

  lemma CenturyIsNotLeap(c: int)
    requires 0 <= c < 3
    ensures !IsLeap(100 * c + 96 + 3 + 1)
  {
  }

  /** Every day of an era is a day of one of its years. */
  lemma SplitEra(doe: int) returns (yoe: int, doy: int)
    requires 0 <= doe < 146097
    ensures 0 <= yoe < 400 && 0 <= doy <= LastInYear(yoe) && doe == StartInEra(yoe) + doy
    ensures YearOfEra(doe) == yoe
  {
    var c := if doe == 146096 then 3 else doe / 36524;
    var r := doe - 36524 * c;
    var q, t := r / 1461, r % 1461;
    var j := if t == 1460 then 3 else t / 365;
    yoe, doy := 100 * c + 4 * q + j, t - 365 * j;
    assert 0 <= c <= 3 && 0 <= r <= 36524 && (r == 36524 ==> c == 3);
    assert 0 <= q <= 24 && 0 <= j <= 3 && 0 <= doy <= 365 && (doy == 365 ==> j == 3);
    if doy == 365 {
      FourthYear(c, q);
    }
    YearOfEraIs(c, q, j, doy);
  }

  lemma FourthYear(c: int, q: int)
    requires 0 <= c <= 3 && 0 <= q <= 24 && (q == 24 ==> c == 3)
    ensures IsLeap(100 * c + 4 * q + 3 + 1)
  {
    var y := 100 * c + 4 * q + 4;
    assert y == 4 * (25 * c + q + 1);
    if q < 24 {
      assert y % 100 == 4 * q + 4;
    }
  }

  /** The month and day of a day of a March year. */
  lemma MonthOf(doy: int) returns (m: int, d: int)
    requires 0 <= doy <= 365
    ensures var mp := Wrap(5 * doy + 2) / 153; m == FromJanuary(mp) && d == Wrap(doy - (153 * mp + 2) / 5 + 1)
    ensures 1 <= m <= 12 && 1 <= d <= 31 && doy == MonthStart(m) + d - 1
    ensures m != 2 ==> d <= DaysInMonth(0, m)
    ensures m == 2 ==> d <= 29 && (d == 29 <==> doy == 365)
  {
    var mp := (5 * doy + 2) / 153;
    hide Wrap;
    Fits(5 * doy + 2);
    assert 0 <= mp <= 11;
    Fits(doy - (153 * mp + 2) / 5 + 1);
    Fits(mp + if mp < 10 then 3 else WORD - 9);
    m, d := FromJanuary(mp), Wrap(doy - (153 * mp + 2) / 5 + 1);
    assert m == if mp < 10 then mp + 3 else mp - 9;
    assert d == doy - (153 * mp + 2) / 5 + 1;
  }

  lemma LeapInEra(era: int, y: int)
    ensures IsLeap(400 * era + y) == IsLeap(y)
  {
    QuotientIs(400 * era + y, 4, 100 * era + y / 4, y % 4);
    QuotientIs(400 * era + y, 100, 4 * era + y / 100, y % 100);
    QuotientIs(400 * era + y, 400, era + y / 400, y % 400);
  }

  /** Every day number names a date of the calendar, and the date's number is that number. */
  lemma DayNumberToDate(days: int)
    ensures IsDate(CivilFromDays(days)) && DaysFromCivil(CivilFromDays(days)) == days
  {
    hide TruncDiv, Wrap, FromJanuary, MonthStart, YearStart, DaysFromCivil, YearOfEra, IsLeap;
    var z := days + 719468;
    EraOf(z);
    var era := z / 146097;
    var doe := z - era * 146097;
    Fits(doe);
    var yoe, doy := SplitEra(doe);
    Fits(doy);
    var m, d := MonthOf(doy);
    var date := CivilFromDays(days);
    assert date == Date(400 * era + yoe + (if m <= 2 then 1 else 0), m, d);
    LeapInEra(era, yoe + 1);
    assert IsDate(date);
    DaysAre(date);
    EraStart(era, yoe);
  }

  // ---- the order -----------------------------------------------------------------------------------

  lemma {:induction false} YearsAdd(y: int, y': int)
    requires y < y'
    ensures YearStart(y) + (if IsLeap(y + 1) then 366 else 365) <= YearStart(y')
    decreases y' - y
  {
    hide YearStart, IsLeap;
    YearLength(y');
    if y < y' - 1 {
      YearsAdd(y, y' - 1);
    }
  }

  /** The day of its March year a date is. */
  function MarchDay(date: Date): int { MonthStart(date.m) + date.d - 1 }

  lemma MarchDayIsInYear(date: Date)
    requires IsDate(date)
    ensures 0 <= MarchDay(date) < if IsLeap(MarchYear(date) + 1) then 366 else 365
  {
    hide IsLeap;
  }

  lemma MarchOrder(a: Date, b: Date)
    requires IsDate(a) && IsDate(b) && Before(a, b)
    ensures MarchYear(a) < MarchYear(b) || (MarchYear(a) == MarchYear(b) && MarchDay(a) < MarchDay(b))
  {
    hide IsLeap;
  }

  /** A later date has a larger number. */
  lemma DaysInOrder(a: Date, b: Date)
    requires IsDate(a) && IsDate(b) && Before(a, b)
    ensures DaysFromCivil(a) < DaysFromCivil(b)
  {
    hide IsLeap, IsDate, Before, MonthStart, YearStart, DaysFromCivil;
    MarchOrder(a, b);
    DaysAre(a);
    DaysAre(b);
    MarchDayIsInYear(a);
    MarchDayIsInYear(b);
    if MarchYear(a) < MarchYear(b) {
      YearsAdd(MarchYear(a), MarchYear(b));
    }
  }

  /** Every date of the calendar has a day number, which names it and no other. */
  lemma DateToDayNumber(date: Date)
    requires IsDate(date)
    ensures CivilFromDays(DaysFromCivil(date)) == date
  {
    hide IsDate, DaysFromCivil, CivilFromDays;
    var other := CivilFromDays(DaysFromCivil(date));
    DayNumberToDate(DaysFromCivil(date));
    if Before(other, date) {
      DaysInOrder(other, date);
    } else if Before(date, other) {
      DaysInOrder(date, other);
    }
  }

  /** Day 0 is 1 January 1970, so with NextDayIsOneMore these are the days of the calendar. */
  lemma Epoch()
    ensures DaysFromCivil(Date(1970, 1, 1)) == 0 && CivilFromDays(0) == Date(1970, 1, 1)
  {
    hide DaysFromCivil, CivilFromDays;
    DaysAre(Date(1970, 1, 1));
    assert YearStart(1969) == 719162 && MonthStart(1) == 306;
    DateToDayNumber(Date(1970, 1, 1));
  }

  lemma TheNextDay(days: int)
    ensures CivilFromDays(days + 1) == NextDay(CivilFromDays(days))
  {
    hide IsDate, DaysFromCivil, CivilFromDays, NextDay;
    DayNumberToDate(days);
    NextDayIsOneMore(CivilFromDays(days));
    DateToDayNumber(NextDay(CivilFromDays(days)));
  }

  // ---- instants ------------------------------------------------------------------------------------

  const DAY_SEC := 86400

  lemma FloorIs(a: int, b: int)
    requires b > 0
    ensures FloorDiv(a, b) == a / b && FloorMod(a, b) == a % b
  {
    if a < 0 {
      NegativeFloor(a, b, -a / b, -a % b);
    }
  }

  lemma NegativeFloor(a: int, b: int, q: int, r: int)
    requires b > 0 && a < 0 && q == -a / b && r == -a % b
    ensures a / b == (if r == 0 then -q else -q - 1) && TruncMod(a, b) == -r
  {
    assert -a == q * b + r;
    if r == 0 {
      QuotientIs(a, b, -q, 0);
    } else {
      QuotientIs(a, b, -q - 1, b - r);
    }
  }

  lemma QuotientIs(a: int, b: int, q: int, r: int)
    requires b > 0 && a == q * b + r && 0 <= r < b
    ensures a / b == q && a % b == r
  {
    var q', r' := a / b, a % b;
    assert a == q' * b + r';
    OneQuotient(b, q, r, q', r');
  }

  lemma OneQuotient(b: int, q: int, r: int, q': int, r': int)
    requires b > 0 && q * b + r == q' * b + r' && 0 <= r < b && 0 <= r' < b
    ensures q == q' && r == r'
  {
    if q > q' {
      MultiplesApart(q', q, b);
    } else if q < q' {
      MultiplesApart(q, q', b);
    }
  }

  lemma MultiplesApart(q: int, q': int, b: int)
    requires q < q' && b > 0
    ensures q' * b >= q * b + b
  {
    var k := q' - q - 1;
    assert k * b >= 0;
    assert q' * b == q * b + b + k * b;
  }

  datatype TimeFields = TimeFields(year2: int, doy: int, hour: int, minute: int)

  /** Unix milliseconds of the minute a decoded frame names, in the years 2000 to 2099. */
  function UtcMsFromFields(f: TimeFields): int {
    var days := DaysFromCivil(Date(2000 + f.year2, 1, 1)) + (f.doy - 1);
    (days * 86400 + f.hour * 3600 + f.minute * 60) * 1000
  }

  /** The host clock's reading, in the form a frame has. */
  function HostNowFields(hostMs: int): TimeFields {
    var secs := FloorDiv(hostMs, 1000);
    var days, rem := FloorDiv(secs, DAY_SEC), FloorMod(secs, DAY_SEC);
    var date := CivilFromDays(days);
    TimeFields(TruncMod(date.y, 100), days - DaysFromCivil(Date(date.y, 1, 1)) + 1,
               TruncDiv(rem, 3600), TruncMod(TruncDiv(rem, 60), 60))
  }

  function IsLastDayOfMonth(ms: int): bool {
    var days := FloorDiv(FloorDiv(ms, 1000), DAY_SEC);
    CivilFromDays(days).m != CivilFromDays(days + 1).m
  }

  function YearOf(ms: int): int { CivilFromDays(ms / 86400000).y }

  lemma DayOfMs(ms: int)
    ensures FloorDiv(FloorDiv(ms, 1000), DAY_SEC) == ms / 86400000
    ensures FloorMod(FloorDiv(ms, 1000), DAY_SEC) == ms / 1000 - ms / 86400000 * DAY_SEC
  {
    FloorIs(ms, 1000);
    FloorIs(ms / 1000, DAY_SEC);
  }

  /** The last day of the month is told exactly. */
  lemma MonthEnds(ms: int)
    ensures var date := CivilFromDays(ms / 86400000);
            IsLastDayOfMonth(ms) <==> date.d == DaysInMonth(date.y, date.m)
  {
    hide CivilFromDays, FloorDiv, FloorMod;
    DayOfMs(ms);
    DayNumberToDate(ms / 86400000);
    TheNextDay(ms / 86400000);
  }

  lemma SameYear(y: int, y': int)
    ensures DaysFromCivil(Date(y, 1, 1)) == DaysFromCivil(Date(y', 1, 1)) <==> y == y'
  {
    if y < y' {
      DaysInOrder(Date(y, 1, 1), Date(y', 1, 1));
    } else if y' < y {
      DaysInOrder(Date(y', 1, 1), Date(y, 1, 1));
    }
  }

  /** A reading taken apart and put together again is the instant floored to the minute, exactly when it
      lies in the century a two-digit year can name. */
  lemma HostFieldsRoundTrip(ms: int)
    ensures UtcMsFromFields(HostNowFields(ms)) == ms / 60000 * 60000 <==> 2000 <= YearOf(ms) <= 2099
  {
    hide CivilFromDays, DaysFromCivil, FloorDiv, FloorMod, TruncDiv;
    DayOfMs(ms);
    var y := YearOf(ms);
    CenturyYear(y);
    SameYear(2000 + TruncMod(y, 100), y);
    var rem := ms / 1000 - ms / 86400000 * DAY_SEC;
    MinutesOf(ms, rem);
  }

  lemma CenturyYear(y: int)
    ensures 2000 + TruncMod(y, 100) == y <==> 2000 <= y <= 2099
  {
  }

  lemma MinutesOf(ms: int, rem: int)
    requires rem == ms / 1000 - ms / 86400000 * DAY_SEC
    ensures (ms / 86400000 * 86400 + TruncDiv(rem, 3600) * 3600 + TruncMod(TruncDiv(rem, 60), 60) * 60) * 1000 == ms / 60000 * 60000
  {
    var days := ms / 86400000;
    assert rem >= 0;
    assert rem / 60 / 60 == rem / 3600;
    assert ms / 60000 == days * 1440 + rem / 60;
  }
}
