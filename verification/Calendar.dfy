/** Days since 1970-01-01 to a civil date, proved against the Gregorian calendar day by day. */
module Calendar {
  import opened Widths

  datatype Date = Date(year: nat, month: nat, day: nat)

  /** The date arithmetic of the source; every intermediate value is a u64, so no subtraction goes below zero. */
  function DaysToDate(days: u64): Date
    requires days + 719_468 < 0x1_0000_0000_0000_0000
  {
    var z: u64 := days + 719_468;
    var era: u64 := z / 146_097;
    var doe: u64 := z - era * 146_097;
    YearOfEraBounds(doe);
    var yoe: u64 := YearOfEra(doe);
    var y: u64 := yoe + era * 400;
    var doy: u64 := doe - (365 * yoe + yoe / 4 - yoe / 100);
    FromMarch(y, doy)
  }

  function YearOfEra(doe: u64): u64
    requires doe < 146_097
  {
    (doe - doe / 1460 + doe / 36524 - doe / 146_096) / 365
  }

  /** The tail of the algorithm: a March-based year and a day of it, to a date. */
  function FromMarch(y: u64, doy: u64): Date
    requires doy <= 365 && y < 0xffff_ffff_ffff_ffff
  {
    var mp: u64 := (5 * doy + 2) / 153;
    var d: u64 := doy - (153 * mp + 2) / 5 + 1;
    var m: u64 := if mp < 10 then mp + 3 else mp - 9;
    Date(if m <= 2 then y + 1 else y, m, d)
  }

  // ----- The Gregorian calendar -----

  predicate IsLeap(year: nat) {
    year % 4 == 0 && (year % 100 != 0 || year % 400 == 0)
  }

  function DaysInMonth(year: nat, month: nat): nat {
    if month == 2 then (if IsLeap(year) then 29 else 28)
    else if month == 4 || month == 6 || month == 9 || month == 11 then 30
    else 31
  }

  predicate ValidDate(d: Date) {
    1 <= d.month <= 12 && 1 <= d.day <= DaysInMonth(d.year, d.month)
  }

  function NextDay(d: Date): Date {
    if d.day < DaysInMonth(d.year, d.month) then d.(day := d.day + 1)
    else if d.month < 12 then Date(d.year, d.month + 1, 1)
    else Date(d.year + 1, 1, 1)
  }

  // ----- The year of the era -----

  /** Days before the first of March of year y of an era. */
  function YearStart(y: nat): nat {
    365 * y + y / 4 - y / 100 + y / 400
  }

  /** The year of the era given by centuries, four-year cycles and years, and what the divisions make of it. */
  lemma Cycles(c: nat, q: nat, k: nat, r: nat)
    requires c <= 3 && q <= 24 && k <= 3
    requires r <= 364 || (r == 365 && k == 3 && (q < 24 || c == 3))
    ensures var y := 100 * c + 4 * q + k;
            var doe := 36524 * c + 1461 * q + 365 * k + r;
            && doe < 146_097 && y <= 399
            && YearOfEra(doe) == y && doe - r == YearStart(y) == 365 * y + y / 4 - y / 100
  {
    var y := 100 * c + 4 * q + k;
    var doe := 36524 * c + 1461 * q + 365 * k + r;
    assert y / 4 == 25 * c + q && y / 100 == c && y / 400 == 0;
    var t := 24 * c + q + 365 * k + r;
    Quotients(c, 25 * c + q, t, doe);
    assert 365 * y == 36500 * c + 1460 * q + 365 * k;
  }

  /** The three divisions that correct for leap days. */
  lemma Quotients(c: nat, n: nat, t: nat, doe: nat)
    requires c <= 3 && doe == 1460 * n + t && t < 2920 && 36524 * c <= doe <= 36524 * c + 36524
    requires doe == 36524 * c + 36524 ==> c == 3
    ensures doe / 36524 - doe / 146_096 == c
    ensures doe / 1460 == n + (if t >= 1460 then 1 else 0)
  {
  }

  /** Every day of an era lies in exactly one year of it. */
  lemma DayOfEra(doe: u64) returns (c: nat, q: nat, k: nat, r: nat)
    requires doe < 146_097
    ensures c <= 3 && q <= 24 && k <= 3
    ensures r <= 364 || (r == 365 && k == 3 && (q < 24 || c == 3))
    ensures doe == 36524 * c + 1461 * q + 365 * k + r
  {
    c := if doe / 36524 <= 3 then doe / 36524 else 3;
    var inCentury := doe - 36524 * c;
    q := inCentury / 1461;
    var inCycle := inCentury - 1461 * q;
    k := if inCycle / 365 <= 3 then inCycle / 365 else 3;
    r := inCycle - 365 * k;
  }

  lemma YearOfEraBounds(doe: u64)
    requires doe < 146_097
    ensures var yoe := YearOfEra(doe);
            && yoe <= 399 && YearStart(yoe) == 365 * yoe + yoe / 4 - yoe / 100
            && YearStart(yoe) <= doe <= YearStart(yoe) + 365
  {
    var c, q, k, r := DayOfEra(doe);
    Cycles(c, q, k, r);
  }

  lemma Quarters(n: nat)
    ensures (n + 1) / 4 == n / 4 + if (n + 1) % 4 == 0 then 1 else 0
  {
  }

  lemma Centuries(n: nat)
    ensures (n + 1) / 100 == n / 100 + if (n + 1) % 100 == 0 then 1 else 0
  {
  }

  lemma Eras(n: nat)
    ensures (n + 1) / 400 == n / 400 + if (n + 1) % 400 == 0 then 1 else 0
  {
  }

  lemma Hundreds(k: nat)
    ensures 100 * k % 100 == 0
  {
  }

  lemma Fours(k: nat)
    ensures 4 * k % 4 == 0
  {
  }

  lemma EraIsCentury(n: nat)
    requires n % 400 == 0
    ensures n % 100 == 0
  {
    Hundreds(4 * (n / 400));
  }

  lemma CenturyIsQuarter(n: nat)
    requires n % 100 == 0
    ensures n % 4 == 0
  {
    Fours(25 * (n / 100));
  }

  lemma SameRemainder4(era: nat, n: nat)
    ensures (400 * era + n) % 4 == n % 4
  {
    RemainderOf4(100 * era + n / 4, n % 4);
  }

  lemma RemainderOf4(q: nat, r: nat)
    requires r < 4
    ensures (4 * q + r) % 4 == r
  {
  }

  lemma SameRemainder100(era: nat, n: nat)
    ensures (400 * era + n) % 100 == n % 100
  {
    RemainderOf100(4 * era + n / 100, n % 100);
  }

  lemma RemainderOf100(q: nat, r: nat)
    requires r < 100
    ensures (100 * q + r) % 100 == r
  {
  }

  lemma SameRemainder400(era: nat, n: nat)
    ensures (400 * era + n) % 400 == n % 400
  {
    RemainderOf400(era + n / 400, n % 400);
  }

  lemma RemainderOf400(q: nat, r: nat)
    requires r < 400
    ensures (400 * q + r) % 400 == r
  {
  }

  lemma LeapsRepeat(era: nat, n: nat)
    ensures IsLeap(400 * era + n) == IsLeap(n)
  {
    SameRemainder4(era, n);
    SameRemainder100(era, n);
    SameRemainder400(era, n);
  }

  /** A March-based year is 366 days long exactly when the February that ends it is a leap one. */
  lemma YearLength(era: nat, y: nat)
    ensures YearStart(y + 1) == YearStart(y) + if IsLeap(400 * era + y + 1) then 366 else 365
  {
    LeapsRepeat(era, y + 1);
    Quarters(y);
    Centuries(y);
    Eras(y);
    if (y + 1) % 400 == 0 {
      EraIsCentury(y + 1);
    }
    if (y + 1) % 100 == 0 {
      CenturyIsQuarter(y + 1);
    }
  }

  lemma YearStartGrows(a: nat, b: nat)
    requires a < b
    ensures YearStart(a + 1) <= YearStart(b)
  {
  }

  lemma CycleIsLeap(c: nat, q: nat, k: nat)
    requires c <= 3 && q <= 24 && k <= 3
    ensures IsLeap(100 * c + 4 * q + k + 1) <==> k == 3 && (q < 24 || c == 3)
  {
    var n := 100 * c + 4 * q + k + 1;
    assert n % 4 == (k + 1) % 4;
    assert n % 100 == (4 * q + k + 1) % 100;
  }

  /** The year the formula gives ends after the day. */
  lemma YearEndsAfter(doe: u64)
    requires doe < 146_097
    ensures YearOfEra(doe) <= 399 && YearStart(YearOfEra(doe)) <= doe < YearStart(YearOfEra(doe) + 1)
  {
    hide YearOfEra, YearStart, IsLeap;
    var c, q, k, r := DayOfEra(doe);
    Cycles(c, q, k, r);
    CycleIsLeap(c, q, k);
    YearLength(0, 100 * c + 4 * q + k);
  }

  /** The division formula gives the year whose days doe is among. */
  lemma YearOfEraIs(doe: u64, y: nat)
    requires y <= 399 && YearStart(y) <= doe < YearStart(y + 1)
    ensures doe < 146_097 && YearOfEra(doe) == y
  {
    hide YearOfEra, YearStart, IsLeap;
    EraEnds(y);
    YearEndsAfter(doe);
    var y0 := YearOfEra(doe);
    if y0 < y {
      YearStartGrows(y0, y);
    } else if y < y0 {
      YearStartGrows(y, y0);
    }
  }

  lemma EraEnds(y: nat)
    requires y <= 399
    ensures YearStart(y + 1) <= 146_097 && YearStart(400) == 146_097
  {
    if y < 399 {
      YearStartGrows(y, 399);
    }
  }

  /** The month and the day of the month of a day of a March-based year. */
  lemma MonthOf(y: u64, doy: u64)
    requires doy <= 365 && y < 0xffff_ffff_ffff_ffff
    ensures FromMarch(y, doy) ==
            if doy < 31 then Date(y, 3, doy + 1)
            else if doy < 61 then Date(y, 4, doy - 30)
            else if doy < 92 then Date(y, 5, doy - 60)
            else if doy < 122 then Date(y, 6, doy - 91)
            else if doy < 153 then Date(y, 7, doy - 121)
            else if doy < 184 then Date(y, 8, doy - 152)
            else if doy < 214 then Date(y, 9, doy - 183)
            else if doy < 245 then Date(y, 10, doy - 213)
            else if doy < 275 then Date(y, 11, doy - 244)
            else if doy < 306 then Date(y, 12, doy - 274)
            else if doy < 337 then Date(y + 1, 1, doy - 305)
            else Date(y + 1, 2, doy - 336)
  {
  }

  lemma MarchStep(y: u64, doy: u64)
    requires doy < 365 && y < 0xffff_ffff_ffff_ffff && (doy == 364 ==> IsLeap(y + 1))
    ensures FromMarch(y, doy + 1) == NextDay(FromMarch(y, doy))
  {
    hide FromMarch;
    MonthOf(y, doy);
    MonthOf(y, doy + 1);
  }

  lemma MarchWraps(y: u64, last: u64)
    requires y + 1 < 0xffff_ffff_ffff_ffff && last == if IsLeap(y + 1) then 365 else 364
    ensures FromMarch(y + 1, 0) == NextDay(FromMarch(y, last))
  {
    hide FromMarch;
    MonthOf(y, last);
    MonthOf(y + 1, 0);
  }

  // ----- Main results -----

  const DAY_LIMIT: nat := 0x1_0000_0000_0000_0000 - 719_468

  /** The date of a day given by its era, its year of the era and its day of the year. */
  lemma DateFrom(days: nat, era: nat, yoe: nat, doy: nat)
    requires days < DAY_LIMIT && yoe <= 399 && YearStart(yoe) + doy < YearStart(yoe + 1)
    requires days + 719_468 == 146_097 * era + YearStart(yoe) + doy
    ensures doy <= 365 && 400 * era + yoe + 1 < 0xffff_ffff_ffff_ffff
    ensures DaysToDate(days) == FromMarch(400 * era + yoe, doy)
  {
    hide YearOfEra, FromMarch, IsLeap, YearStart;
    var doe := YearStart(yoe) + doy;
    YearOfEraIs(doe, yoe);
    assert (days + 719_468) / 146_097 == era;
    YearOfEraBounds(doe);
  }

  /** Day zero is the first of January 1970, the 307th day of the 370th year of the fifth era. */
  lemma Epoch()
    ensures DaysToDate(0) == Date(1970, 1, 1)
  {
    hide DaysToDate, YearOfEra;
    assert YearStart(369) == 134_774 && YearStart(370) == 135_139;
    DateFrom(0, 4, 369, 306);
    assert FromMarch(1969, 306) == Date(1970, 1, 1);
  }

  /** The date of the next day number is the Gregorian next day. */
  lemma NextDayNumber(days: nat)
    requires days + 1 < DAY_LIMIT
    ensures DaysToDate(days + 1) == NextDay(DaysToDate(days))
  {
    hide YearOfEra, FromMarch, NextDay, IsLeap, YearStart, DaysToDate;
    var z := days + 719_468;
    var era, doe := z / 146_097, z % 146_097;
    YearEndsAfter(doe);
    var yoe := YearOfEra(doe);
    var doy := doe - YearStart(yoe);
    var y := 400 * era + yoe;
    DateFrom(days, era, yoe, doy);
    YearLength(era, yoe);
    if doe + 1 < YearStart(yoe + 1) {
      DateFrom(days + 1, era, yoe, doy + 1);
      MarchStep(y, doy);
    } else if yoe < 399 {
      YearLength(era, yoe + 1);
      DateFrom(days + 1, era, yoe + 1, 0);
      MarchWraps(y, doy);
    } else {
      EraEnds(399);
      FirstYear();
      DateFrom(days + 1, era + 1, 0, 0);
      MarchWraps(y, doy);
    }
  }

  lemma FirstYear()
    ensures YearStart(0) == 0 && YearStart(1) == 365
  {
  }

  // ----- Order -----

  predicate Earlier(a: Date, b: Date) {
    a.year < b.year || (a.year == b.year && (a.month < b.month || (a.month == b.month && a.day < b.day)))
  }

  lemma NextDayIsLater(d: Date)
    requires ValidDate(d)
    ensures ValidDate(NextDay(d)) && Earlier(d, NextDay(d))
  {
  }

  /** Every day number below the limit has a valid date from 1970 on. */
  lemma {:induction false} EveryDateIsValid(days: nat)
    requires days < DAY_LIMIT
    ensures ValidDate(DaysToDate(days)) && DaysToDate(days).year >= 1970
  {
    hide DaysToDate, NextDay;
    if days == 0 {
      Epoch();
    } else {
      EveryDateIsValid(days - 1);
      NextDayNumber(days - 1);
      NextDayIsLater(DaysToDate(days - 1));
    }
  }

  /** Later day numbers have later dates, so the map is injective. */
  lemma {:induction false} DatesIncrease(a: nat, b: nat)
    requires a < b < DAY_LIMIT
    ensures Earlier(DaysToDate(a), DaysToDate(b))
    decreases b
  {
    hide DaysToDate, NextDay;
    if a < b - 1 {
      DatesIncrease(a, b - 1);
    }
    EveryDateIsValid(b - 1);
    NextDayNumber(b - 1);
    NextDayIsLater(DaysToDate(b - 1));
  }
}
