/**
 * Civil dates, the `hour=` partition name and RFC 3339 UTC text (src/time.rs).
 * The calendar itself is `NextDay`; the two conversions are closed formulas
 * proved to count its days.
 */
module CivilTime {
  import opened Decimal

  const US_PER_SEC: nat := 1_000_000
  const US_PER_HOUR: nat := 3_600 * US_PER_SEC
  const US_PER_DAY: nat := 24 * US_PER_HOUR
  const MIN_YEAR := 1970
  const MAX_YEAR := 250_000
  const U64_END: nat := 0x1_0000_0000_0000_0000
  const I64_MAX: nat := 0x7fff_ffff_ffff_ffff

  datatype Date = Date(year: int, month: int, day: int)

  predicate IsLeap(year: int) {
    year % 4 == 0 && (year % 100 != 0 || year % 400 == 0)
  }

  function DaysInMonth(year: int, month: int): int {
    if month in {1, 3, 5, 7, 8, 10, 12} then 31
    else if month in {4, 6, 9, 11} then 30
    else if month == 2 then if IsLeap(year) then 29 else 28
    else 0
  }

  predicate ValidDate(date: Date) {
    1 <= date.month <= 12 && 1 <= date.day <= DaysInMonth(date.year, date.month)
  }

  /** The Gregorian calendar: the day after a valid date. */
  function NextDay(date: Date): Date {
    if date.day < DaysInMonth(date.year, date.month) then date.(day := date.day + 1)
    else if date.month < 12 then Date(date.year, date.month + 1, 1)
    else Date(date.year + 1, 1, 1)
  }

  /** Days since 1970-01-01 to a civil date. */
  function DaysToYmd(days: int): Date {
    var z := days + 719_468;
    var era := z / 146_097;
    var doe := z % 146_097;
    var yoe := YearOf(doe);
    var y := yoe + era * 400;
    var doy := doe - (365 * yoe + yoe / 4 - yoe / 100);
    var mp := MonthOf(doy);
    var d := doy - (153 * mp + 2) / 5 + 1;
    var m := if mp < 10 then mp + 3 else mp - 9;
    Date(y + (if m <= 2 then 1 else 0), m, d)
  }

  function YearOf(doe: int): int {
    (doe - doe / 1_460 + doe / 36_524 - doe / 146_096) / 365
  }

  function MonthOf(doy: int): int { (5 * doy + 2) / 153 }

  /** A civil date to days since 1970-01-01. */
  function YmdToDays(date: Date): int {
    var y := date.year - (if date.month <= 2 then 1 else 0);
    var era := y / 400;
    var yoe := y % 400;
    var mp := if date.month > 2 then date.month - 3 else date.month + 9;
    var doy := (153 * mp + 2) / 5 + date.day - 1;
    var doe := yoe * 365 + yoe / 4 - yoe / 100 + doy;
    era * 146_097 + doe - 719_468
  }

  // ---- the 400-year era --------------------------------------------------

  /** First day, within the era, of the March-based year `yoe`. */
  function YearStart(yoe: nat): int { 365 * yoe + yoe / 4 - yoe / 100 }

  function MonthStart(mp: nat): int { (153 * mp + 2) / 5 }

  lemma Grows(b: int, k: int)
    requires b > 0 && k >= 1
    ensures b * k >= b
  {
  }

  lemma Between(b: int, k: int)
    requires b > 0 && -b < b * k < b
    ensures k == 0
  {
    if k >= 1 { Grows(b, k); } else if k <= -1 { Grows(b, -k); }
  }

  lemma Quotient(a: int, b: int, q: int)
    requires b > 0 && b * q <= a < b * q + b
    ensures a / b == q && a % b == a - b * q
  {
    var k := a / b;
    assert b * k + a % b == a;
    assert b * (k - q) == b * k - b * q;
    Between(b, k - q);
  }

  lemma YearStartDigits(c: nat, q: nat, n: nat)
    requires q < 25 && n < 4
    ensures YearStart(100 * c + 4 * q + n) == 36_524 * c + 1_461 * q + 365 * n
  {
    Quotient(100 * c + 4 * q + n, 4, 25 * c + q);
    Quotient(100 * c + 4 * q + n, 100, c);
  }

  /** A day of the era as century, four-year cycle and day within the cycle. */
  lemma EraDigits(doe: int) returns (c: nat, q: nat, s: nat)
    requires 0 <= doe < 146_097
    ensures c < 4 && q < 25 && s <= 1_460
    ensures doe == 36_524 * c + 1_461 * q + s
    ensures c < 3 && q == 24 ==> s < 1_460
  {
    c := if doe == 146_096 then 3 else doe / 36_524;
    var r := doe - c * 36_524;
    q := r / 1_461;
    s := r % 1_461;
  }

  /** Day `doe` lies in March-based year `yoe` (whose last year has a leap day at the era's end). */
  predicate InYear(doe: int, yoe: int) {
    0 <= yoe < 400 && YearStart(yoe) <= doe
    && (doe < YearStart(yoe + 1) || (yoe == 399 && doe == 146_096))
  }

  lemma YearOfEra(doe: int)
    requires 0 <= doe < 146_097
    ensures InYear(doe, YearOf(doe))
  {
    var c, q, s := EraDigits(doe);
    var n := if s == 1_460 then 3 else s / 365;
    YearOfDigits(c, q, n, s);
    DigitsInYear(c, q, n, s);
  }

  lemma YearOfDigits(c: nat, q: nat, n: nat, s: nat)
    requires c < 4 && q < 25 && n < 4
    requires if n < 3 then 365 * n <= s < 365 * n + 365 else 1_095 <= s <= 1_460
    requires c < 3 && q == 24 ==> s < 1_460
    ensures YearOf(36_524 * c + 1_461 * q + s) == 100 * c + 4 * q + n
  {
    var doe := 36_524 * c + 1_461 * q + s;
    var e := if 24 * c + q + s >= 1_460 then 1 else 0;
    Quotient(doe, 1_460, 25 * c + q + e);
    var last := if doe == 146_096 then 1 else 0;
    Quotient(doe, 146_096, last);
    Quotient(doe, 36_524, c + last);
    Quotient(36_500 * c + 1_460 * q + s - e, 365, 100 * c + 4 * q + n);
  }

  lemma DigitsInYear(c: nat, q: nat, n: nat, s: nat)
    requires c < 4 && q < 25 && n < 4
    requires if n < 3 then 365 * n <= s < 365 * n + 365 else 1_095 <= s <= 1_460
    requires c < 3 && q == 24 ==> s < 1_460
    ensures InYear(36_524 * c + 1_461 * q + s, 100 * c + 4 * q + n)
  {
    YearStartDigits(c, q, n);
    if n < 3 { YearStartDigits(c, q, n + 1); }
    else if q < 24 { YearStartDigits(c, q + 1, 0); }
    else if c < 3 { YearStartDigits(c + 1, 0, 0); }
  }

  lemma {:induction false} YearStartMonotone(a: nat, b: nat)
    requires a < b
    ensures YearStart(a) + 365 <= YearStart(b)
    decreases b
  {
    if a + 1 < b { YearStartMonotone(a, b - 1); }
  }

  lemma YearUnique(doe: int, a: int, b: int)
    requires doe < 146_097 && InYear(doe, a) && InYear(doe, b)
    ensures a == b
  {
    if a + 1 < b { YearStartMonotone(a + 1, b); }
    if b + 1 < a { YearStartMonotone(b + 1, a); }
  }

  lemma LeapInEra(era: int, y: int)
    ensures IsLeap(y + era * 400) <==> IsLeap(y)
  {
    Quotient(y + era * 400, 4, y / 4 + era * 100);
    Quotient(y + era * 400, 100, y / 100 + era * 4);
    Quotient(y + era * 400, 400, y / 400 + era);
  }

  lemma LeapDigits(c: nat, q: nat, n: nat)
    requires c < 4 && q < 25 && n < 4
    ensures IsLeap(100 * c + 4 * q + n + 1) <==> n == 3 && (q < 24 || c == 3)
  {
    Quotient(100 * c + 4 * q + n + 1, 4, 25 * c + q + (n + 1) / 4);
    var wraps := if q == 24 && n == 3 then 1 else 0;
    Quotient(100 * c + 4 * q + n + 1, 100, c + wraps);
    Quotient(100 * c + 4 * q + n + 1, 400, if wraps == 1 && c == 3 then 1 else 0);
  }

  /** A March-based year has a 366th day exactly when the civil year it ends in is a leap year. */
  lemma YearLength(era: int, yoe: int)
    requires 0 <= yoe < 400
    ensures NextStart(yoe) == YearStart(yoe) + (if IsLeap(yoe + 1 + era * 400) then 366 else 365)
  {
    LeapInEra(era, yoe + 1);
    var c, q, n := YearDigits(yoe);
    YearLengthDigits(c, q, n);
  }

  lemma YearDigits(yoe: nat) returns (c: nat, q: nat, n: nat)
    requires yoe < 400
    ensures c < 4 && q < 25 && n < 4 && yoe == 100 * c + 4 * q + n
  {
    c := yoe / 100;
    q, n := yoe % 100 / 4, yoe % 100 % 4;
  }

  lemma YearLengthDigits(c: nat, q: nat, n: nat)
    requires c < 4 && q < 25 && n < 4
    ensures var yoe := 100 * c + 4 * q + n;
            NextStart(yoe) == YearStart(yoe) + (if IsLeap(yoe + 1) then 366 else 365)
  {
    LeapDigits(c, q, n);
    YearStartDigits(c, q, n);
    if n < 3 { YearStartDigits(c, q, n + 1); }
    else if q < 24 { YearStartDigits(c, q + 1, 0); }
    else if c < 3 { YearStartDigits(c + 1, 0, 0); }
  }

  function NextStart(yoe: nat): int {
    if yoe == 399 then 146_097 else YearStart(yoe + 1)
  }

  lemma MonthOfYear(doy: int)
    requires 0 <= doy <= 365
    ensures var mp := MonthOf(doy);
            0 <= mp < 12 && MonthStart(mp) <= doy && (mp < 11 ==> doy < MonthStart(mp + 1))
  {
  }

  lemma MonthUnique(doy: int, mp: int)
    requires 0 <= doy <= 365 && 0 <= mp < 12
    requires MonthStart(mp) <= doy && (mp < 11 ==> doy < MonthStart(mp + 1))
    ensures MonthOf(doy) == mp
  {
  }

  // ---- March-based dates --------------------------------------------------

  /** A day named by era, March-based year of the era, month and day of month. */
  datatype March = March(era: int, yoe: nat, mp: nat, d: int) {
    predicate Valid() {
      yoe < 400 && mp < 12 && 1 <= d <= Length()
    }
    function Length(): int {
      if mp < 11 then MonthStart(mp + 1) - MonthStart(mp)
      else if IsLeap(yoe + 1 + era * 400) then 29 else 28
    }
    function DayOfYear(): int { MonthStart(mp) + d - 1 }
    function DayOfEra(): int { YearStart(yoe) + DayOfYear() }
    function Civil(): Date {
      var m := if mp < 10 then mp + 3 else mp - 9;
      Date(yoe + era * 400 + (if m <= 2 then 1 else 0), m, d)
    }
    function Number(): int { era * 146_097 + DayOfEra() - 719_468 }
  }

  lemma DayOfEraInYear(t: March)
    requires t.Valid()
    ensures 0 <= t.DayOfYear() <= 365
    ensures 0 <= t.DayOfEra() < 146_097 && InYear(t.DayOfEra(), t.yoe)
  {
    YearLength(t.era, t.yoe);
    if t.yoe < 399 { YearEndsInEra(t.yoe + 1); }
  }

  lemma YearEndsInEra(yoe: nat)
    requires yoe < 400
    ensures YearStart(yoe) <= 146_097 - 366
  {
  }

  /** Every day number has a March-based name. */
  lemma NameOf(days: int) returns (t: March)
    ensures t.Valid() && t.Number() == days
  {
    var z := days + 719_468;
    var doe := z % 146_097;
    YearOfEra(doe);
    var yoe := YearOf(doe);
    YearLength(z / 146_097, yoe);
    var doy := doe - YearStart(yoe);
    MonthOfYear(doy);
    t := March(z / 146_097, yoe, MonthOf(doy), doy - MonthStart(MonthOf(doy)) + 1);
  }

  /** `DaysToYmd` recovers that name. */
  lemma DaysToYmdOfNumber(t: March)
    requires t.Valid()
    ensures DaysToYmd(t.Number()) == t.Civil()
  {
    hide YearOf, MonthOf, InYear, IsLeap;
    DayOfEraInYear(t);
    Quotient(t.Number() + 719_468, 146_097, t.era);
    YearOfEra(t.DayOfEra());
    YearUnique(t.DayOfEra(), t.yoe, YearOf(t.DayOfEra()));
    MonthUnique(t.DayOfYear(), t.mp);
  }

  lemma YmdToDaysOfCivil(t: March)
    requires t.Valid()
    ensures ValidDate(t.Civil()) && YmdToDays(t.Civil()) == t.Number()
  {
    Quotient(t.yoe + t.era * 400, 400, t.era);
  }

  /** Every valid civil date has a March-based name. */
  lemma MarchOf(date: Date) returns (t: March)
    requires ValidDate(date)
    ensures t.Valid() && t.Civil() == date
  {
    var y := date.year - (if date.month <= 2 then 1 else 0);
    var mp := if date.month > 2 then date.month - 3 else date.month + 9;
    t := March(y / 400, y % 400, mp, date.day);
  }

  function Successor(t: March): March {
    if t.d < t.Length() then t.(d := t.d + 1)
    else if t.mp < 11 then t.(mp := t.mp + 1, d := 1)
    else if t.yoe < 399 then t.(yoe := t.yoe + 1, mp := 0, d := 1)
    else March(t.era + 1, 0, 0, 1)
  }

  lemma SuccessorNumber(t: March)
    requires t.Valid()
    ensures Successor(t).Valid() && Successor(t).Number() == t.Number() + 1
  {
    if t.mp == 11 { YearLength(t.era, t.yoe); }
  }

  lemma SuccessorCivil(t: March)
    requires t.Valid()
    ensures Successor(t).Civil() == NextDay(t.Civil())
  {
  }

  // ---- the conversions are mutually inverse and count calendar days ------

  lemma DaysRoundTrip(days: int)
    ensures ValidDate(DaysToYmd(days))
    ensures YmdToDays(DaysToYmd(days)) == days
  {
    hide *;
    var t := NameOf(days);
    DaysToYmdOfNumber(t);
    YmdToDaysOfCivil(t);
  }

  lemma DateRoundTrip(date: Date)
    requires ValidDate(date)
    ensures DaysToYmd(YmdToDays(date)) == date
  {
    hide *;
    var t := MarchOf(date);
    YmdToDaysOfCivil(t);
    DaysToYmdOfNumber(t);
  }

  /** Day numbers count calendar days: with the anchor, this determines every date. */
  lemma DaysCountTheCalendar(days: int)
    ensures DaysToYmd(days + 1) == NextDay(DaysToYmd(days))
  {
    hide *;
    var t := NameOf(days);
    SuccessorNumber(t);
    SuccessorCivil(t);
    DaysToYmdOfNumber(t);
    DaysToYmdOfNumber(Successor(t));
  }

  lemma DayZero()
    ensures DaysToYmd(0) == Date(1970, 1, 1)
  {
    hide DaysToYmd;
    DaysToYmdOfNumber(March(4, 369, 10, 1));
  }

  // ---- text ---------------------------------------------------------------

  lemma YearAfterEpoch(days: nat)
    ensures DaysToYmd(days).year >= 1970
  {
    hide DaysToYmd, March.Valid, March.Number, March.Civil;
    var t := NameOf(days);
    DaysToYmdOfNumber(t);
    MarchAfterEpoch(t);
  }

  lemma MarchAfterEpoch(t: March)
    requires t.Valid() && t.Number() >= 0
    ensures t.Civil().year >= 1970
  {
    DayOfEraInYear(t);
    assert t.era * 146_097 + t.DayOfEra() >= 719_468;
    assert t.era >= 4;
    if t.era == 4 {
      hide March.DayOfEra, InYear;
      if t.yoe < 369 {
        YearEndsBefore(t.DayOfEra(), t.yoe);
      } else if t.yoe == 369 {
        LateInYear(t);
      }
    }
  }

  lemma YearEndsBefore(doe: int, yoe: nat)
    requires InYear(doe, yoe) && yoe < 369
    ensures doe < 134_774
  {
    if yoe < 368 { YearStartMonotone(yoe + 1, 369); }
  }

  /** From day 306 of a March-based year on it is January. */
  lemma LateInYear(t: March)
    requires t.Valid() && t.yoe == 369 && t.DayOfEra() >= 135_080
    ensures t.mp >= 10
  {
  }

  function FormatDate(date: Date): string
    requires ValidDate(date) && date.year >= 0
  {
    Pad(date.year, 4) + "-" + Pad(date.month, 2) + "-" + Pad(date.day, 2)
  }

  /** The Hive partition directory of a timestamp, `hour=YYYY-MM-DDTHH`. */
  function HourPartition(ts: nat): string {
    DaysRoundTrip(ts / US_PER_DAY); YearAfterEpoch(ts / US_PER_DAY);
    "hour=" + FormatDate(DaysToYmd(ts / US_PER_DAY)) + "T" + Pad(ts % US_PER_DAY / US_PER_HOUR, 2)
  }

  function FormatClock(rem: nat): string {
    Pad(rem / US_PER_HOUR, 2) + ":" + Pad(rem % US_PER_HOUR / (60 * US_PER_SEC), 2) + ":"
    + Pad(rem % (60 * US_PER_SEC) / US_PER_SEC, 2)
  }

  /** Epoch microseconds as `YYYY-MM-DDTHH:MM:SS.ffffffZ`. */
  function FormatRfc3339(ts: nat): string {
    DaysRoundTrip(ts / US_PER_DAY); YearAfterEpoch(ts / US_PER_DAY);
    FormatDate(DaysToYmd(ts / US_PER_DAY)) + "T"
    + (FormatClock(ts % US_PER_DAY) + "." + Pad(ts % US_PER_SEC, 6)) + "Z"
  }

  function ParseDate(s: string): Option<Date> {
    var parts := Split(s, '-');
    if |parts| != 3 then None
    else match (ParseNumber(parts[0], I64_MAX), ParseNumber(parts[1], I64_MAX), ParseNumber(parts[2], I64_MAX))
      case (Some(y), Some(mo), Some(d)) =>
        if MIN_YEAR <= y <= MAX_YEAR && 1 <= mo <= 12 && 1 <= d <= DaysInMonth(y, mo)
        then Some(Date(y, mo, d)) else None
      case _ => None
  }

  /** Microseconds into the day of `HH:MM:SS`. */
  function ParseClock(s: string): Option<nat> {
    var parts := Split(s, ':');
    if |parts| != 3 then None
    else match (ParseNumber(parts[0], I64_MAX), ParseNumber(parts[1], I64_MAX), ParseNumber(parts[2], I64_MAX))
      case (Some(h), Some(mi), Some(sec)) =>
        if h > 23 || mi > 59 || sec > 59 then None
        else Some(h * US_PER_HOUR + mi * 60 * US_PER_SEC + sec * US_PER_SEC)
      case _ => None
  }

  /** One to six digits after the point, right-padded to microseconds. */
  function ParseFraction(s: string): Option<nat> {
    if 1 <= |s| <= 6 && AllDigits(s) then Some(Value(s) * Pow10(6 - |s|)) else None
  }

  function ParseTimeOfDay(s: string): Option<nat> {
    match SplitOnce(s, '.')
    case None => ParseClock(s)
    case Some((clock, fraction)) =>
      match (ParseClock(clock), ParseFraction(fraction))
      case (Some(us), Some(frac)) => Some(us + frac)
      case _ => None
  }

  /** `YYYY-MM-DDTHH:MM:SS[.ffffff]Z` to epoch microseconds; `None` for every refusal. */
  function ParseRfc3339(s: string): Option<int> {
    match StripSuffix(s, "Z")
    case None => None
    case Some(rest) =>
      match SplitOnce(rest, 'T')
      case None => None
      case Some((date, time)) =>
        match (ParseDate(date), ParseTimeOfDay(time))
        case (Some(d), Some(us)) => Some(YmdToDays(d) * US_PER_DAY + us)
        case _ => None
  }

  lemma SplitThree(a: string, b: string, d: string, c: char)
    requires c !in a && c !in b && c !in d
    ensures Split(a + [c] + b + [c] + d, c) == [a, b, d]
  {
    assert a + [c] + b + [c] + d == a + [c] + (b + [c] + d);
    SplitOnceOfConcat(a, c, b + [c] + d);
    SplitOnceOfConcat(b, c, d);
    SplitOnceMeaning(d, c);
    assert Split(d, c) == [d];
    assert Split(b + [c] + d, c) == [b, d];
  }

  lemma ParseOfPad(n: nat, width: nat, max: nat)
    requires n <= max
    ensures AllDigits(Pad(n, width)) && ParseNumber(Pad(n, width), max) == Some(n)
  {
    ValueOfPad(n, width);
  }

  lemma SplitNumbers(a: nat, wa: nat, b: nat, wb: nat, d: nat, wd: nat, c: char)
    requires !IsDigit(c)
    ensures Split(Pad(a, wa) + [c] + Pad(b, wb) + [c] + Pad(d, wd), c) == [Pad(a, wa), Pad(b, wb), Pad(d, wd)]
  {
    ValueOfPad(a, wa);
    ValueOfPad(b, wb);
    ValueOfPad(d, wd);
    SplitThree(Pad(a, wa), Pad(b, wb), Pad(d, wd), c);
  }

  lemma ParseFormattedDate(date: Date)
    requires ValidDate(date) && MIN_YEAR <= date.year
    ensures ParseDate(FormatDate(date)) == if date.year <= MAX_YEAR then Some(date) else None
    ensures 'T' !in FormatDate(date)
  {
    hide Pad, Split;
    SplitNumbers(date.year, 4, date.month, 2, date.day, 2, '-');
    ParseOfPad(date.month, 2, I64_MAX);
    ParseOfPad(date.day, 2, I64_MAX);
    ValueOfPad(date.year, 4);
  }

  lemma ParseFormattedClock(rem: nat)
    requires rem < US_PER_DAY
    ensures ParseClock(FormatClock(rem)) == Some(rem - rem % US_PER_SEC)
    ensures '.' !in FormatClock(rem)
  {
    hide Pad, Split;
    var h, mi, sec := rem / US_PER_HOUR, rem % US_PER_HOUR / (60 * US_PER_SEC), rem % (60 * US_PER_SEC) / US_PER_SEC;
    ClockDigits(rem);
    SplitNumbers(h, 2, mi, 2, sec, 2, ':');
    ParseOfPad(h, 2, I64_MAX);
    ParseOfPad(mi, 2, I64_MAX);
    ParseOfPad(sec, 2, I64_MAX);
  }

  lemma ClockDigits(rem: nat)
    requires rem < US_PER_DAY
    ensures var h, mi, sec := rem / US_PER_HOUR, rem % US_PER_HOUR / (60 * US_PER_SEC),
              rem % (60 * US_PER_SEC) / US_PER_SEC;
            h < 24 && mi < 60 && sec < 60
            && rem - rem % US_PER_SEC == h * US_PER_HOUR + mi * 60 * US_PER_SEC + sec * US_PER_SEC
  {
    MinuteOfHour(rem);
    SecondOfMinute(rem);
  }

  lemma MinuteOfHour(rem: nat)
    ensures rem % (60 * US_PER_SEC) == (rem % US_PER_HOUR) % (60 * US_PER_SEC)
  {
    hide *;
    NestedMod(rem, 60_000_000, 60);
    ClockUnits();
  }

  lemma SecondOfMinute(rem: nat)
    ensures rem % US_PER_SEC == (rem % (60 * US_PER_SEC)) % US_PER_SEC
  {
    hide *;
    NestedMod(rem, 1_000_000, 60);
    ClockUnits();
  }

  lemma ClockUnits()
    ensures US_PER_SEC == 1_000_000 && US_PER_HOUR == 60 * 60_000_000
  {
  }

  /** Reducing by a multiple first does not change the remainder. */
  lemma NestedMod(a: nat, b: nat, k: nat)
    requires b > 0 && k > 0 && k * b > 0
    ensures a % b == (a % (k * b)) % b
  {
    var q, r := a / (k * b), a % (k * b);
    var p, x := r / b, r % b;
    assert a == (k * b) * q + r && r == b * p + x;
    assert a == b * (k * q + p) + x by { Regroup(b, k, q, p, x); }
    Quotient(a, b, k * q + p);
  }

  lemma Regroup(b: int, k: int, q: int, p: int, x: int)
    ensures (k * b) * q + (b * p + x) == b * (k * q + p) + x
  {
  }

  lemma ParseFormattedTimeOfDay(rem: nat)
    requires rem < US_PER_DAY
    ensures ParseTimeOfDay(FormatClock(rem) + "." + Pad(rem % US_PER_SEC, 6)) == Some(rem)
  {
    hide Pad, FormatClock, ParseTimeOfDay, ParseClock, ParseFraction;
    ParseFormattedClock(rem);
    ParseSixDigits(rem % US_PER_SEC);
    ParseTimeOfDayParts(FormatClock(rem), Pad(rem % US_PER_SEC, 6));
  }

  lemma ParseTimeOfDayParts(clock: string, fraction: string)
    requires '.' !in clock && ParseClock(clock).Some? && ParseFraction(fraction).Some?
    ensures ParseTimeOfDay(clock + "." + fraction) == Some(ParseClock(clock).value + ParseFraction(fraction).value)
  {
    SplitOnceOfConcat(clock, '.', fraction);
  }

  lemma ParseSixDigits(us: nat)
    requires us < US_PER_SEC
    ensures ParseFraction(Pad(us, 6)) == Some(us)
  {
    ValueOfPad(us, 6);
    assert Pow10(6) == 1_000_000;
    PadWidth(us, 6);
  }

  lemma ParseParts(date: string, time: string)
    requires 'T' !in date && ParseTimeOfDay(time).Some?
    ensures ParseRfc3339(date + "T" + time + "Z")
         == match ParseDate(date)
            case None => None
            case Some(d) => Some(YmdToDays(d) * US_PER_DAY + ParseTimeOfDay(time).value)
  {
    StripSuffixOfConcat(date + "T" + time, "Z");
    SplitOnceOfConcat(date, 'T', time);
  }

  /** Formatting then parsing is the identity exactly up to the year the parser accepts. */
  lemma TextRoundTrip(ts: nat)
    ensures ParseRfc3339(FormatRfc3339(ts))
         == if DaysToYmd(ts / US_PER_DAY).year <= MAX_YEAR then Some(ts) else None
  {
    hide YmdToDays, DaysToYmd, FormatDate, FormatClock, ParseRfc3339, ParseDate, ParseTimeOfDay, Pad;
    var days, rem := ts / US_PER_DAY, ts % US_PER_DAY;
    DaysRoundTrip(days);
    YearAfterEpoch(days);
    ParseFormattedDate(DaysToYmd(days));
    ParseFormattedTimeOfDay(rem);
    assert rem % US_PER_SEC == ts % US_PER_SEC;
    ParseParts(FormatDate(DaysToYmd(days)), FormatClock(rem) + "." + Pad(ts % US_PER_SEC, 6));
  }

  /**
   * Whatever the parser accepts fits the engine's 64-bit timestamps, and its
   * calendar day and time of day are the ones written: nothing rolls over.
   */
  lemma ParsedInstant(s: string)
    requires ParseRfc3339(s).Some?
    ensures 0 <= ParseRfc3339(s).value < U64_END
    ensures var ts := ParseRfc3339(s).value;
            var (date, time) := SplitOnce(s[..|s| - 1], 'T').value;
            ParseDate(date) == Some(DaysToYmd(ts / US_PER_DAY))
            && ParseTimeOfDay(time) == Some(ts % US_PER_DAY)
  {
    hide Split, SplitOnce, ParseNumber, YmdToDays, DaysToYmd, ParseTimeOfDay, ParseDate;
    var (date, time) := SplitOnce(s[..|s| - 1], 'T').value;
    ParsedDateBounds(date);
    ParsedTimeBounds(time);
    DateRoundTrip(ParseDate(date).value);
    Quotient(ParseRfc3339(s).value, US_PER_DAY, YmdToDays(ParseDate(date).value));
  }

  lemma ParsedDateBounds(s: string)
    requires ParseDate(s).Some?
    ensures ValidDate(ParseDate(s).value)
    ensures 0 <= YmdToDays(ParseDate(s).value) <= 91_500_000
  {
    hide Split, ParseNumber;
  }

  lemma ParsedTimeBounds(s: string)
    requires ParseTimeOfDay(s).Some?
    ensures ParseTimeOfDay(s).value < US_PER_DAY
  {
    hide Split, ParseNumber, SplitOnce;
    if SplitOnce(s, '.').Some? { FractionBound(SplitOnce(s, '.').value.1); }
  }

  lemma FractionBound(s: string)
    ensures ParseFraction(s).Some? ==> ParseFraction(s).value < US_PER_SEC
  {
    if ParseFraction(s).Some? {
      ValueBound(s);
      assert Pow10(1) == 10 && Pow10(2) == 100 && Pow10(3) == 1_000;
      assert Pow10(4) == 10_000 && Pow10(5) == 100_000 && Pow10(6) == 1_000_000;
    }
  }

  lemma {:induction false} ValueBound(s: string)
    requires AllDigits(s)
    ensures Value(s) < Pow10(|s|)
  {
    if s != "" { ValueBound(s[..|s| - 1]); }
  }

  lemma HourSplit(ts: nat)
    ensures ts / US_PER_DAY == ts / US_PER_HOUR / 24
    ensures ts % US_PER_DAY / US_PER_HOUR == ts / US_PER_HOUR % 24
  {
    var h, r := ts / US_PER_HOUR, ts % US_PER_HOUR;
    var d, i := h / 24, h % 24;
    Quotient(ts, US_PER_DAY, d);
    Quotient(i * US_PER_HOUR + r, US_PER_HOUR, i);
  }

  lemma FormatDateInjective(a: Date, b: Date)
    requires ValidDate(a) && a.year >= 0 && ValidDate(b) && b.year >= 0
    requires FormatDate(a) == FormatDate(b)
    ensures a == b
  {
    hide Pad, Split, DaysInMonth;
    SplitNumbers(a.year, 4, a.month, 2, a.day, 2, '-');
    SplitNumbers(b.year, 4, b.month, 2, b.day, 2, '-');
    var parts := Split(FormatDate(a), '-');
    assert parts[0] == Pad(a.year, 4) && parts[1] == Pad(a.month, 2) && parts[2] == Pad(a.day, 2);
    PadInjective(a.year, b.year, 4);
    PadInjective(a.month, b.month, 2);
    PadInjective(a.day, b.day, 2);
  }

  lemma FormatDateHasNoT(date: Date)
    requires ValidDate(date) && date.year >= 0
    ensures 'T' !in "hour=" + FormatDate(date)
  {
    hide Pad, DaysInMonth;
    ValueOfPad(date.year, 4);
    ValueOfPad(date.month, 2);
    ValueOfPad(date.day, 2);
  }

  lemma HourNameInjective(a: Date, h: nat, b: Date, k: nat)
    requires ValidDate(a) && a.year >= 0 && ValidDate(b) && b.year >= 0
    requires "hour=" + FormatDate(a) + "T" + Pad(h, 2) == "hour=" + FormatDate(b) + "T" + Pad(k, 2)
    ensures a == b && h == k
  {
    hide Pad, DaysInMonth, FormatDate, SplitOnce;
    FormatDateHasNoT(a);
    FormatDateHasNoT(b);
    SplitOnceOfConcat("hour=" + FormatDate(a), 'T', Pad(h, 2));
    SplitOnceOfConcat("hour=" + FormatDate(b), 'T', Pad(k, 2));
    assert ("hour=" + FormatDate(a))[5..] == FormatDate(a);
    assert ("hour=" + FormatDate(b))[5..] == FormatDate(b);
    FormatDateInjective(a, b);
    PadInjective(h, k, 2);
  }

  /** Two timestamps share a partition name exactly when they share an hour. */
  lemma PartitionNamesHours(a: nat, b: nat)
    ensures HourPartition(a) == HourPartition(b) <==> a / US_PER_HOUR == b / US_PER_HOUR
  {
    hide Pad, FormatDate, DaysToYmd, YmdToDays, ValidDate;
    HourSplit(a);
    HourSplit(b);
    var da, db := a / US_PER_DAY, b / US_PER_DAY;
    DaysRoundTrip(da);
    YearAfterEpoch(da);
    DaysRoundTrip(db);
    YearAfterEpoch(db);
    if HourPartition(a) == HourPartition(b) {
      HourNameInjective(DaysToYmd(da), a % US_PER_DAY / US_PER_HOUR, DaysToYmd(db), b % US_PER_DAY / US_PER_HOUR);
    }
  }
}
