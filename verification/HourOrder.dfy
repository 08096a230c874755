/**
 * When partition names sort by time (src/time.rs, `hour_partition`): the name is meant to be of fixed
 * width so that readers can sort it, and it is up to the year 9999.
 */
module HourOrder {
  import opened Decimal
  import opened CivilTime

  /** Lexicographic order of text. */
  predicate TextLess(a: string, b: string) {
    b != "" && (a == "" || a[0] < b[0] || (a[0] == b[0] && TextLess(a[1..], b[1..])))
  }

  lemma {:induction false} TextTotal(a: string, b: string)
    ensures a == b || TextLess(a, b) || TextLess(b, a)
    ensures TextLess(a, b) ==> a != b && !TextLess(b, a)
    decreases |a|
  {
    if a != "" && b != "" {
      TextTotal(a[1..], b[1..]);
      assert a == [a[0]] + a[1..] && b == [b[0]] + b[1..];
    }
  }

  /** Behind parts of one length, the first difference decides. */
  lemma {:induction false} LessConcat(a: string, b: string, s: string, t: string)
    requires |a| == |b|
    ensures TextLess(a + s, b + t) <==> TextLess(a, b) || (a == b && TextLess(s, t))
    decreases |a|
  {
    if a == "" {
      assert a + s == s && b + t == t;
    } else {
      assert (a + s)[1..] == a[1..] + s && (b + t)[1..] == b[1..] + t;
      LessConcat(a[1..], b[1..], s, t);
      assert a == [a[0]] + a[1..] && b == [b[0]] + b[1..];
    }
  }

  lemma OneChar(c: char, d: char)
    ensures TextLess([c], [d]) <==> c < d
  {
  }

  /** Digit strings of one length sort by value. */
  lemma {:induction false} DigitsSort(a: string, b: string)
    requires AllDigits(a) && AllDigits(b) && |a| == |b|
    ensures TextLess(a, b) <==> Value(a) < Value(b)
    ensures Value(a) == Value(b) ==> a == b
    decreases |a|
  {
    if a != "" {
      var n := |a| - 1;
      var x, y, c, d := a[..n], b[..n], a[n], b[n];
      assert a == x + [c] && b == y + [d];
      DigitsSort(x, y);
      LessConcat(x, y, [c], [d]);
      OneChar(c, d);
      TextTotal(x, y);
    }
  }

  lemma PadSorts(x: nat, y: nat, width: nat)
    requires width >= 1 && x < Pow10(width) && y < Pow10(width)
    ensures |Pad(x, width)| == |Pad(y, width)| == width
    ensures TextLess(Pad(x, width), Pad(y, width)) <==> x < y
    ensures Pad(x, width) == Pad(y, width) <==> x == y
  {
    hide Pad, Pow10;
    ValueOfPad(x, width);
    ValueOfPad(y, width);
    PadWidth(x, width);
    PadWidth(y, width);
    DigitsSort(Pad(x, width), Pad(y, width));
  }

  predicate DateLess(a: Date, b: Date) {
    a.year < b.year || (a.year == b.year && (a.month < b.month || (a.month == b.month && a.day < b.day)))
  }

  /** Day numbers and dates have one order. */
  lemma {:induction false} DatesAscend(a: int, b: int)
    requires a <= b
    ensures a < b ==> DateLess(DaysToYmd(a), DaysToYmd(b))
    ensures a == b ==> DaysToYmd(a) == DaysToYmd(b)
    decreases b - a
  {
    hide DaysToYmd, ValidDate, DaysInMonth;
    if a < b {
      DatesAscend(a, b - 1);
      DaysCountTheCalendar(b - 1);
      DaysRoundTrip(b - 1);
      NextDayLater(DaysToYmd(b - 1));
    }
  }

  lemma NextDayLater(date: Date)
    requires ValidDate(date)
    ensures DateLess(date, NextDay(date))
  {
  }

  function HourName(date: Date, hour: nat): string
    requires ValidDate(date) && date.year >= 0
  {
    "hour=" + FormatDate(date) + "T" + Pad(hour, 2)
  }

  lemma Widths()
    ensures Pow10(2) == 100 && Pow10(4) == 10_000
  {
    assert Pow10(1) == 10 && Pow10(3) == 1000;
  }

  /** One more number of fixed width in front of the rest. */
  lemma PartSorts(x: nat, y: nat, width: nat, s: string, t: string)
    requires width >= 1 && x < Pow10(width) && y < Pow10(width)
    ensures TextLess(Pad(x, width) + s, Pad(y, width) + t) <==> x < y || (x == y && TextLess(s, t))
  {
    hide Pad, Pow10, TextLess;
    PadSorts(x, y, width);
    LessConcat(Pad(x, width), Pad(y, width), s, t);
  }

  lemma SameFront(front: string, s: string, t: string)
    ensures TextLess(front + s, front + t) <==> TextLess(s, t)
  {
    hide TextLess;
    TextTotal(front, front);
    LessConcat(front, front, s, t);
  }

  /** Up to the year 9999 names sort as date and hour do. */
  lemma NamesSort(a: Date, h: nat, b: Date, k: nat)
    requires ValidDate(a) && 0 <= a.year <= 9999 && ValidDate(b) && 0 <= b.year <= 9999 && h < 24 && k < 24
    ensures TextLess(HourName(a, h), HourName(b, k)) <==> DateLess(a, b) || (a == b && h < k)
  {
    hide Pad, TextLess, DaysInMonth, Pow10;
    Widths();
    DayWidths(a);
    DayWidths(b);
    var ta, tb := "T" + Pad(h, 2), "T" + Pad(k, 2);
    var da, db := "-" + (Pad(a.day, 2) + ta), "-" + (Pad(b.day, 2) + tb);
    var ma, mb := "-" + (Pad(a.month, 2) + da), "-" + (Pad(b.month, 2) + db);
    assert HourName(a, h) == "hour=" + (Pad(a.year, 4) + ma) && HourName(b, k) == "hour=" + (Pad(b.year, 4) + mb);
    SameFront("hour=", Pad(a.year, 4) + ma, Pad(b.year, 4) + mb);
    PartSorts(a.year, b.year, 4, ma, mb);
    SameFront("-", Pad(a.month, 2) + da, Pad(b.month, 2) + db);
    PartSorts(a.month, b.month, 2, da, db);
    SameFront("-", Pad(a.day, 2) + ta, Pad(b.day, 2) + tb);
    PartSorts(a.day, b.day, 2, ta, tb);
    SameFront("T", Pad(h, 2), Pad(k, 2));
    PadSorts(h, k, 2);
  }

  lemma DayWidths(date: Date)
    requires ValidDate(date)
    ensures date.month < 100 && 0 <= date.day < 100
  {
  }

  /** The names of two timestamps sort as their hours do. */
  predicate InOrder(a: nat, b: nat) {
    TextLess(HourPartition(a), HourPartition(b)) <==> a / US_PER_HOUR < b / US_PER_HOUR
  }

  function Year(ts: nat): int { DaysToYmd(ts / US_PER_DAY).year }

  lemma FourDigitYears(a: nat, b: nat)
    requires Year(a) <= 9999 && Year(b) <= 9999
    ensures InOrder(a, b)
  {
    hide DaysToYmd, TextLess, FormatDate, Pad, ValidDate, DateLess;
    var da, db, h, k := a / US_PER_DAY, b / US_PER_DAY, a % US_PER_DAY / US_PER_HOUR, b % US_PER_DAY / US_PER_HOUR;
    HourSplit(a);
    HourSplit(b);
    DaysRoundTrip(da);
    DaysRoundTrip(db);
    YearAfterEpoch(da);
    YearAfterEpoch(db);
    NamesSort(DaysToYmd(da), h, DaysToYmd(db), k);
    DaysSort(da, db);
  }

  lemma DaysSort(a: int, b: int)
    ensures DateLess(DaysToYmd(a), DaysToYmd(b)) <==> a < b
    ensures DaysToYmd(a) == DaysToYmd(b) <==> a == b
  {
    hide DaysToYmd;
    if a <= b { DatesAscend(a, b); } else { DatesAscend(b, a); }
  }

  lemma YearsAscend(a: nat, b: nat)
    requires a <= b
    ensures Year(a) <= Year(b)
  {
    hide DaysToYmd;
    assert a / US_PER_DAY <= b / US_PER_DAY;
    DatesAscend(a / US_PER_DAY, b / US_PER_DAY);
  }

  /** The first day of the year 10000 sorts before the last of 9999. */
  lemma FiveDigitYear() returns (a: nat, b: nat)
    ensures Year(a) == 9999 && Year(b) == 10_000 && b == a + US_PER_DAY && b % US_PER_DAY == 0 && !InOrder(a, b)
    ensures DaysToYmd(b / US_PER_DAY) == Date(10_000, 1, 1)
  {
    hide DaysToYmd, YmdToDays, FormatDate, Pad;
    var last := Date(9999, 12, 31);
    DateRoundTrip(last);
    var d := YmdToDays(last);
    DaysCountTheCalendar(d);
    DayZero();
    DaysSort(0, d);
    a, b := d * US_PER_DAY, (d + 1) * US_PER_DAY;
    assert a / US_PER_DAY == d && b / US_PER_DAY == d + 1 && a % US_PER_DAY == 0 == b % US_PER_DAY;
    HoursApart(d);
    NamesSwap(a, b);
  }

  lemma HoursApart(d: nat)
    ensures d * US_PER_DAY / US_PER_HOUR < (d + 1) * US_PER_DAY / US_PER_HOUR
  {
    HourSplit(d * US_PER_DAY);
    HourSplit((d + 1) * US_PER_DAY);
  }

  lemma NamesSwap(a: nat, b: nat)
    requires DaysToYmd(a / US_PER_DAY) == Date(9999, 12, 31) && DaysToYmd(b / US_PER_DAY) == Date(10_000, 1, 1)
    ensures !TextLess(HourPartition(a), HourPartition(b))
  {
    hide DaysToYmd, TextLess;
    var x, y := HourPartition(a), HourPartition(b);
    assert Pad(9999, 4)[0] == '9' by { assert Pad(9, 1) == "9" && Pad(99, 2)[0] == '9' && Pad(999, 3)[0] == '9'; }
    assert Pad(10_000, 4)[0] == '1' by {
      assert Pad(1, 0) == "1" && Pad(10, 1)[0] == '1' && Pad(100, 2)[0] == '1' && Pad(1000, 3)[0] == '1';
    }
    assert x == "hour=" + x[5..] && y == "hour=" + y[5..];
    assert x[5..][0] == '9' && y[5..][0] == '1';
    SameFront("hour=", x[5..], y[5..]);
    FirstDecides(x[5..], y[5..]);
  }

  lemma FirstDecides(a: string, b: string)
    requires a != "" && b != "" && a[0] > b[0]
    ensures !TextLess(a, b)
  {
  }

  /** What a text means: the day's number and the clock, in microseconds since the epoch. */
  lemma TextMeans(date: Date, h: nat, mi: nat, sec: nat)
    requires ValidDate(date) && 1970 <= date.year <= 250_000 && h < 24 && mi < 60 && sec < 60
    ensures ParseRfc3339(FormatDate(date) + "T" + (Pad(h, 2) + ":" + Pad(mi, 2) + ":" + Pad(sec, 2)) + "Z")
         == Some(YmdToDays(date) * 86_400_000_000 + ((h * 60 + mi) * 60 + sec) * 1_000_000)
  {
    hide Pad, Split, FormatDate, ParseRfc3339, ParseDate, YmdToDays, DaysInMonth;
    ParseFormattedDate(date);
    var clock := Pad(h, 2) + ":" + Pad(mi, 2) + ":" + Pad(sec, 2);
    ClockMeans(h, mi, sec);
    ParseParts(FormatDate(date), clock);
  }

  lemma ClockMeans(h: nat, mi: nat, sec: nat)
    requires h < 24 && mi < 60 && sec < 60
    ensures ParseTimeOfDay(Pad(h, 2) + ":" + Pad(mi, 2) + ":" + Pad(sec, 2))
              == Some(((h * 60 + mi) * 60 + sec) * 1_000_000)
  {
    hide Pad, ParseClock;
    var clock := Pad(h, 2) + ":" + Pad(mi, 2) + ":" + Pad(sec, 2);
    ClockParses(h, mi, sec);
    NoDot(h, mi, sec);
    SplitOnceMeaning(clock, '.');
  }

  lemma ClockParses(h: nat, mi: nat, sec: nat)
    requires h < 24 && mi < 60 && sec < 60
    ensures ParseClock(Pad(h, 2) + ":" + Pad(mi, 2) + ":" + Pad(sec, 2)) == Some(((h * 60 + mi) * 60 + sec) * 1_000_000)
  {
    hide Pad, Split, ParseNumber;
    var clock := Pad(h, 2) + ":" + Pad(mi, 2) + ":" + Pad(sec, 2);
    SplitNumbers(h, 2, mi, 2, sec, 2, ':');
    assert Split(clock, ':') == [Pad(h, 2), Pad(mi, 2), Pad(sec, 2)];
    ParseOfPad(h, 2, I64_MAX);
    ParseOfPad(mi, 2, I64_MAX);
    ParseOfPad(sec, 2, I64_MAX);
    assert ParseClock(clock) == Some(h * US_PER_HOUR + mi * 60 * US_PER_SEC + sec * US_PER_SEC);
    Micros(h, mi, sec);
  }

  lemma Micros(h: nat, mi: nat, sec: nat)
    ensures h * US_PER_HOUR + mi * 60 * US_PER_SEC + sec * US_PER_SEC == ((h * 60 + mi) * 60 + sec) * 1_000_000
  {
  }

  lemma NoDot(h: nat, mi: nat, sec: nat)
    ensures '.' !in Pad(h, 2) + ":" + Pad(mi, 2) + ":" + Pad(sec, 2)
  {
    hide Pad;
    ValueOfPad(h, 2);
    ValueOfPad(mi, 2);
    ValueOfPad(sec, 2);
  }

  /** A fraction of one to six digits is that part of a second. */
  lemma FractionMeans(s: string)
    requires 1 <= |s| <= 6 && AllDigits(s)
    ensures ParseFraction(s).Some? && ParseFraction(s).value * Pow10(|s|) == Value(s) * 1_000_000
  {
    hide Value;
    PowersMeet(6 - |s|, |s|);
    assert Pow10(6) == 1_000_000 by { assert Pow10(3) == 1000; }
    Regroup(Value(s), Pow10(6 - |s|), Pow10(|s|));
  }

  lemma Regroup(a: nat, b: nat, c: nat)
    ensures (a * b) * c == a * (b * c)
  {
  }

  lemma {:induction false} PowersMeet(a: nat, b: nat)
    ensures Pow10(a) * Pow10(b) == Pow10(a + b)
  {
    if a > 0 {
      PowersMeet(a - 1, b);
      Regroup(10, Pow10(a - 1), Pow10(b));
    }
  }

  /** A partition name is the start of its hour, as text. */
  lemma PartitionIsItsHour(ts: nat)
    requires Year(ts) <= 250_000
    ensures |HourPartition(ts)| >= 5 && HourPartition(ts)[..5] == "hour="
    ensures ParseRfc3339(HourPartition(ts)[5..] + ":00:00Z") == Some(ts - ts % 3_600_000_000)
  {
    hide DaysToYmd, YmdToDays, FormatDate, Pad, ParseRfc3339, ValidDate;
    var days, h := ts / US_PER_DAY, ts % US_PER_DAY / US_PER_HOUR;
    DaysRoundTrip(days);
    YearAfterEpoch(days);
    HourSplit(ts);
    var date := DaysToYmd(days);
    TextMeans(date, h, 0, 0);
    assert Pad(0, 2) == "00" by { ZeroPadded(); }
    assert HourPartition(ts)[5..] + ":00:00Z"
      == FormatDate(date) + "T" + (Pad(h, 2) + ":" + Pad(0, 2) + ":" + Pad(0, 2)) + "Z";
    HourStart(ts);
  }

  lemma ZeroPadded()
    ensures Pad(0, 2) == "00"
  {
    assert Pad(0, 1) == "0";
  }

  lemma HourStart(ts: nat)
    ensures ts / US_PER_DAY * 86_400_000_000 + ts % US_PER_DAY / US_PER_HOUR * 3_600_000_000 == ts - ts % 3_600_000_000
  {
    HourSplit(ts);
    var h := ts / US_PER_HOUR;
    assert ts == h * US_PER_HOUR + ts % US_PER_HOUR && h == h / 24 * 24 + h % 24;
  }

  /** Names up to a time sort by hour exactly when it is not past the year 9999. */
  lemma NamesSortByHour(t: nat)
    ensures (forall a: nat, b: nat :: a <= t && b <= t ==> InOrder(a, b)) <==> Year(t) <= 9999
  {
    hide DaysToYmd, InOrder;
    if Year(t) <= 9999 {
      forall a: nat, b: nat | a <= t && b <= t ensures InOrder(a, b) {
        YearsAscend(a, t);
        YearsAscend(b, t);
        FourDigitYears(a, b);
      }
    } else {
      var a, b := FiveDigitYear();
      NotBefore(b, t);
      assert !InOrder(a, b);
    }
  }

  lemma NotBefore(b: nat, t: nat)
    requires DaysToYmd(b / US_PER_DAY) == Date(10_000, 1, 1) && b % US_PER_DAY == 0 && Year(t) >= 10_000
    ensures b <= t
  {
    hide DaysToYmd;
    var d, e := b / US_PER_DAY, t / US_PER_DAY;
    DaysSort(e, d);
    DaysRoundTrip(e);
    assert !DateLess(DaysToYmd(e), DaysToYmd(d)) by { FirstOfYear(DaysToYmd(e)); }
    assert b == d * US_PER_DAY && t >= e * US_PER_DAY;
  }

  lemma FirstOfYear(date: Date)
    requires ValidDate(date) && date.year >= 10_000
    ensures !DateLess(date, Date(10_000, 1, 1))
  {
  }
}
