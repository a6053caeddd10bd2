/** ISO 8601 timestamps: their printed form is fixed-width and sorts bytewise like the clock, up to the year 9999. */
module Timestamps {
  import opened Widths
  import opened Octets
  import opened Decimal
  import opened Calendar

  // ----- Byte order -----

  /** Lexicographic order, as slices of bytes compare. */
  predicate LexLess(a: Bytes, b: Bytes) {
    if b == [] then false
    else if a == [] then true
    else a[0] < b[0] || (a[0] == b[0] && LexLess(a[1..], b[1..]))
  }

  lemma {:induction false} LexLessIsStrict(a: Bytes)
    ensures !LexLess(a, a)
  {
    if a != [] {
      LexLessIsStrict(a[1..]);
    }
  }

  lemma {:induction false} LexLessIsTotal(a: Bytes, b: Bytes)
    ensures a == b || LexLess(a, b) || LexLess(b, a)
    decreases |a|
  {
    if a != [] && b != [] && a[0] == b[0] {
      LexLessIsTotal(a[1..], b[1..]);
      assert a == [a[0]] + a[1..] && b == [b[0]] + b[1..];
    }
  }

  lemma {:induction false} LexLessIsTransitive(a: Bytes, b: Bytes, c: Bytes)
    requires LexLess(a, b) && LexLess(b, c)
    ensures LexLess(a, c)
    decreases |a|
  {
    if a != [] && a[0] == b[0] == c[0] {
      LexLessIsTransitive(a[1..], b[1..], c[1..]);
    }
  }

  /** Texts of equal length in front decide first. */
  lemma {:induction false} LexLessInFront(a: Bytes, x: Bytes, b: Bytes, y: Bytes)
    requires |a| == |b|
    ensures LexLess(a + x, b + y) <==> LexLess(a, b) || (a == b && LexLess(x, y))
    decreases |a|
  {
    if a == [] {
      assert a + x == x && b + y == y;
    } else {
      assert (a + x)[1..] == a[1..] + x && (b + y)[1..] == b[1..] + y;
      LexLessInFront(a[1..], x, b[1..], y);
      assert a == [a[0]] + a[1..] && b == [b[0]] + b[1..];
    }
  }

  // ----- The printed form -----

  const LETTER_T: byte := 84
  const LETTER_Z: byte := 90

  function FormatTimestamp(epochSecs: u64): Bytes {
    var totalDays := epochSecs / 86400;
    var daySecs := epochSecs % 86400;
    var date := DaysToDate(totalDays);
    TimeText(date, daySecs / 3600, daySecs % 3600 / 60, daySecs % 60)
  }

  function TimeText(date: Date, hours: nat, minutes: nat, seconds: nat): Bytes {
    Padded(date.year, 4) + ([MINUS] + (Padded(date.month, 2) + ([MINUS] + (Padded(date.day, 2) +
    ([LETTER_T] + ClockText(hours, minutes, seconds))))))
  }

  function ClockText(hours: nat, minutes: nat, seconds: nat): Bytes {
    Padded(hours, 2) + ([COLON] + (Padded(minutes, 2) + ([COLON] + (Padded(seconds, 2) + [LETTER_Z]))))
  }

  lemma TwoBytes(a: byte, b: byte, c: byte, d: byte)
    ensures LexLess([a, b], [c, d]) <==> a < c || (a == c && b < d)
  {
    assert [a, b][1..] == [b] && [c, d][1..] == [d];
    assert LexLess([b], [d]) <==> b < d;
  }

  lemma TwoDigitsSort(m: nat, n: nat)
    requires m < 100 && n < 100
    ensures |Padded(m, 2)| == |Padded(n, 2)| == 2 && (LexLess(Padded(m, 2), Padded(n, 2)) <==> m < n)
    ensures Padded(m, 2) == Padded(n, 2) <==> m == n
  {
    hide Padded;
    PaddedTwo(m);
    PaddedTwo(n);
    TwoBytes(DigitByte(m / 10), DigitByte(m % 10), DigitByte(n / 10), DigitByte(n % 10));
  }

  lemma FourDigitsSort(m: nat, n: nat)
    requires m < 10_000 && n < 10_000
    ensures |Padded(m, 4)| == |Padded(n, 4)| == 4 && (LexLess(Padded(m, 4), Padded(n, 4)) <==> m < n)
    ensures Padded(m, 4) == Padded(n, 4) <==> m == n
  {
    hide Padded;
    PaddedHalves(m);
    PaddedHalves(n);
    TwoDigitsSort(m / 100, n / 100);
    TwoDigitsSort(m % 100, n % 100);
    LexLessInFront(Padded(m / 100, 2), Padded(m % 100, 2), Padded(n / 100, 2), Padded(n % 100, 2));
  }

  /** A field and a separator in front of the rest: the field decides unless it is the same. */
  lemma FieldDecides(f: Bytes, g: Bytes, mark: byte, x: Bytes, y: Bytes)
    requires |f| == |g|
    ensures LexLess(f + ([mark] + x), g + ([mark] + y)) <==> LexLess(f, g) || (f == g && LexLess(x, y))
  {
    LexLessInFront(f, [mark] + x, g, [mark] + y);
    LexLessInFront([mark], x, [mark], y);
    LexLessIsStrict([mark]);
  }

  predicate EarlierClock(h: nat, m: nat, s: nat, h': nat, m': nat, s': nat) {
    h < h' || (h == h' && (m < m' || (m == m' && s < s')))
  }

  lemma ClocksSort(h: nat, m: nat, s: nat, h': nat, m': nat, s': nat)
    requires h < 100 && m < 100 && s < 100 && h' < 100 && m' < 100 && s' < 100
    ensures |ClockText(h, m, s)| == 9
    ensures LexLess(ClockText(h, m, s), ClockText(h', m', s')) <==> EarlierClock(h, m, s, h', m', s')
    ensures ClockText(h, m, s) == ClockText(h', m', s') <==> h == h' && m == m' && s == s'
  {
    hide Padded, LexLess;
    TwoDigitsSort(h, h');
    TwoDigitsSort(m, m');
    TwoDigitsSort(s, s');
    var x := Padded(m, 2) + ([COLON] + (Padded(s, 2) + [LETTER_Z]));
    var y := Padded(m', 2) + ([COLON] + (Padded(s', 2) + [LETTER_Z]));
    FieldDecides(Padded(h, 2), Padded(h', 2), COLON, x, y);
    FieldDecides(Padded(m, 2), Padded(m', 2), COLON, Padded(s, 2) + [LETTER_Z], Padded(s', 2) + [LETTER_Z]);
    LexLessInFront(Padded(s, 2), [LETTER_Z], Padded(s', 2), [LETTER_Z]);
    LexLessIsStrict([LETTER_Z]);
    ClockFields(h, m, s);
    ClockFields(h', m', s');
  }

  /** Where the fields of a clock text stand. */
  lemma ClockFields(h: nat, m: nat, s: nat)
    requires h < 100 && m < 100 && s < 100
    ensures var t := ClockText(h, m, s);
            |t| == 9 && t[..2] == Padded(h, 2) && t[3..5] == Padded(m, 2) && t[6..8] == Padded(s, 2)
  {
    hide Padded, LexLess;
    TwoDigitsSort(h, h);
    TwoDigitsSort(m, m);
    TwoDigitsSort(s, s);
  }

  lemma TimesSort(d: Date, h: nat, m: nat, s: nat, d': Date, h': nat, m': nat, s': nat)
    requires d.year < 10_000 && d.month < 100 && d.day < 100 && d'.year < 10_000 && d'.month < 100 && d'.day < 100
    requires h < 100 && m < 100 && s < 100 && h' < 100 && m' < 100 && s' < 100
    ensures |TimeText(d, h, m, s)| == 20
    ensures LexLess(TimeText(d, h, m, s), TimeText(d', h', m', s')) <==>
            Earlier(d, d') || (d == d' && EarlierClock(h, m, s, h', m', s'))
  {
    hide Padded, LexLess, ClockText, EarlierClock;
    FourDigitsSort(d.year, d'.year);
    TwoDigitsSort(d.month, d'.month);
    TwoDigitsSort(d.day, d'.day);
    ClocksSort(h, m, s, h', m', s');
    var x3, y3 := ClockText(h, m, s), ClockText(h', m', s');
    var x2, y2 := Padded(d.day, 2) + ([LETTER_T] + x3), Padded(d'.day, 2) + ([LETTER_T] + y3);
    var x1, y1 := Padded(d.month, 2) + ([MINUS] + x2), Padded(d'.month, 2) + ([MINUS] + y2);
    FieldDecides(Padded(d.year, 4), Padded(d'.year, 4), MINUS, x1, y1);
    FieldDecides(Padded(d.month, 2), Padded(d'.month, 2), MINUS, x2, y2);
    FieldDecides(Padded(d.day, 2), Padded(d'.day, 2), LETTER_T, x3, y3);
  }

  // ----- Main results -----

  /** The first second of the year 10000. */
  const END_OF_9999: nat := 253_402_300_800

  lemma YearsBelowTenThousand(days: nat)
    requires days < 2_932_897
    ensures ValidDate(DaysToDate(days)) && DaysToDate(days).year < 10_000
  {
    hide DaysToDate;
    EveryDateIsValid(days);
    DatesIncrease(days, 2_932_897);
    FirstDayOfTenThousand();
  }

  lemma FirstDayOfTenThousand()
    ensures DaysToDate(2_932_897) == Date(10_000, 1, 1)
    ensures DaysToDate(2_932_896) == Date(9_999, 12, 31)
  {
    hide DaysToDate, FromMarch;
    DateFrom(2_932_897, 24, 399, 306);
    DateFrom(2_932_896, 24, 399, 305);
    MonthOf(9_999, 306);
    MonthOf(9_999, 305);
  }

  /** Before the year 10000 timestamps are 20 bytes long and sort exactly like the seconds they print. */
  lemma TimestampsSort(a: u64, b: u64)
    requires a < END_OF_9999 && b < END_OF_9999
    ensures |FormatTimestamp(a)| == 20
    ensures LexLess(FormatTimestamp(a), FormatTimestamp(b)) <==> a < b
  {
    hide DaysToDate, TimeText, LexLess, Earlier;
    var da, db := a / 86400, b / 86400;
    YearsBelowTenThousand(da);
    YearsBelowTenThousand(db);
    SmallFields(DaysToDate(da));
    SmallFields(DaysToDate(db));
    var sa, sb := a % 86400, b % 86400;
    TimesSort(DaysToDate(da), sa / 3600, sa % 3600 / 60, sa % 60, DaysToDate(db), sb / 3600, sb % 3600 / 60, sb % 60);
    ClockOrder(sa, sb);
    if da < db {
      DatesIncrease(da, db);
      EarlierIsStrict(DaysToDate(da), DaysToDate(db));
    } else if db < da {
      DatesIncrease(db, da);
      EarlierIsStrict(DaysToDate(db), DaysToDate(da));
    } else {
      EarlierIsStrict(DaysToDate(da), DaysToDate(da));
    }
  }

  /** A field of a timestamp: digits, and the number they write. */
  predicate Shows(t: Bytes, from: nat, to: nat, n: nat) {
    from <= to <= |t| && AllDigits(t[from..to]) && Value(t[from..to]) == n
  }

  /** What a time text shows, and where. */
  lemma TimeFields(d: Date, h: nat, m: nat, s: nat)
    requires d.year < 10_000 && d.month < 100 && d.day < 100 && h < 100 && m < 100 && s < 100
    ensures var t := TimeText(d, h, m, s);
            && |t| == 20
            && t[4] == t[7] == MINUS && t[10] == LETTER_T && t[13] == t[16] == COLON && t[19] == LETTER_Z
            && Shows(t, 0, 4, d.year) && Shows(t, 5, 7, d.month) && Shows(t, 8, 10, d.day)
            && Shows(t, 11, 13, h) && Shows(t, 14, 16, m) && Shows(t, 17, 19, s)
  {
    hide Padded, Value, AllDigits;
    FourDigitsSort(d.year, d.year);
    TwoDigitsSort(d.month, d.month);
    TwoDigitsSort(d.day, d.day);
    TwoDigitsSort(h, h);
    TwoDigitsSort(m, m);
    TwoDigitsSort(s, s);
    PaddedHasValue(d.year, 4);
    PaddedHasValue(d.month, 2);
    PaddedHasValue(d.day, 2);
    PaddedHasValue(h, 2);
    PaddedHasValue(m, 2);
    PaddedHasValue(s, 2);
    var t := TimeText(d, h, m, s);
    assert t[0..4] == Padded(d.year, 4) && t[5..7] == Padded(d.month, 2) && t[8..10] == Padded(d.day, 2);
    assert t[11..13] == Padded(h, 2) && t[14..16] == Padded(m, 2) && t[17..19] == Padded(s, 2);
  }

  /** A timestamp shows the civil date of its day and the time of its day, each field where ISO 8601 puts it. */
  lemma TimestampShowsTheTime(secs: u64)
    requires secs < END_OF_9999
    ensures var t := FormatTimestamp(secs);
            && |t| == 20
            && t[4] == t[7] == MINUS && t[10] == LETTER_T && t[13] == t[16] == COLON && t[19] == LETTER_Z
            && Shows(t, 0, 4, DaysToDate(secs / 86400).year) && Shows(t, 5, 7, DaysToDate(secs / 86400).month)
            && Shows(t, 8, 10, DaysToDate(secs / 86400).day)
            && AllDigits(t[11..13]) && AllDigits(t[14..16]) && AllDigits(t[17..19])
            && Value(t[11..13]) * 3600 + Value(t[14..16]) * 60 + Value(t[17..19]) == secs % 86400
            && Value(t[14..16]) < 60 && Value(t[17..19]) < 60
  {
    hide DaysToDate, TimeText, Value, AllDigits;
    YearsBelowTenThousand(secs / 86400);
    SmallFields(DaysToDate(secs / 86400));
    ClockAddsUp(secs % 86400);
    var day := secs % 86400;
    TimeFields(DaysToDate(secs / 86400), day / 3600, day % 3600 / 60, day % 60);
  }

  lemma ClockAddsUp(day: nat)
    requires day < 86400
    ensures day / 3600 * 3600 + day % 3600 / 60 * 60 + day % 60 == day
    ensures day / 3600 < 24 && day % 3600 / 60 < 60 && day % 60 < 60
  {
    var x := day % 3600;
    assert day == 3600 * (day / 3600) + x;
    assert day % 60 == x % 60 by {
      assert day == 60 * (60 * (day / 3600) + x / 60) + x % 60;
    }
    assert x == 60 * (x / 60) + x % 60;
  }

  lemma SmallFields(d: Date)
    requires ValidDate(d)
    ensures d.month < 100 && d.day < 100
  {
  }

  lemma EarlierIsStrict(d: Date, e: Date)
    ensures Earlier(d, e) ==> d != e && !Earlier(e, d)
  {
  }

  lemma ClockOrder(a: nat, b: nat)
    requires a < 86400 && b < 86400
    ensures EarlierClock(a / 3600, a % 3600 / 60, a % 60, b / 3600, b % 3600 / 60, b % 60) <==> a < b
  {
    var x, y := a % 3600, b % 3600;
    assert a == 3600 * (a / 3600) + x && b == 3600 * (b / 3600) + y;
    assert a % 60 == x % 60 && b % 60 == y % 60;
    assert x == 60 * (x / 60) + x % 60 && y == 60 * (y / 60) + y % 60;
  }

  /** The limit is exact: all timestamps up to a bound sort like the clock if and only if the bound ends by the year 9999. */
  lemma TimestampsSortIffBelowTenThousand(bound: u64)
    ensures (forall a: u64, b: u64 :: a < b < bound ==> LexLess(FormatTimestamp(a), FormatTimestamp(b)))
            <==> bound <= END_OF_9999
  {
    if bound <= END_OF_9999 {
      forall a: u64, b: u64 | a < b < bound
        ensures LexLess(FormatTimestamp(a), FormatTimestamp(b))
      {
        TimestampsSort(a, b);
      }
    } else {
      TenThousandSortsBackwards();
    }
  }

  lemma TenThousandSortsBackwards()
    ensures !LexLess(FormatTimestamp(END_OF_9999 - 1), FormatTimestamp(END_OF_9999))
  {
    hide DaysToDate, TimeText;
    FirstDayOfTenThousand();
    assert FormatTimestamp(END_OF_9999 - 1) == TimeText(Date(9_999, 12, 31), 23, 59, 59);
    assert FormatTimestamp(END_OF_9999) == TimeText(Date(10_000, 1, 1), 0, 0, 0);
    FirstByte(Date(9_999, 12, 31), 23, 59, 59);
    FirstByte(Date(10_000, 1, 1), 0, 0, 0);
    PaddedFour(9_999);
    FiveDigits();
  }

  lemma FiveDigits()
    ensures Padded(10_000, 4)[0] == DigitByte(1)
  {
    assert Digits(1) == [DigitByte(1)];
    assert Digits(10) == [DigitByte(1)] + [DigitByte(0)];
    assert Digits(100)[0] == DigitByte(1);
    assert Digits(1000)[0] == DigitByte(1);
    assert |Digits(1000)| == 4 && Digits(10_000) == Digits(1000) + [DigitByte(0)];
  }

  lemma FirstByte(d: Date, h: nat, m: nat, s: nat)
    ensures Padded(d.year, 4) != [] && TimeText(d, h, m, s) != []
    ensures TimeText(d, h, m, s)[0] == Padded(d.year, 4)[0]
  {
  }
}
