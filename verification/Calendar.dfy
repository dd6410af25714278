/** Rendering a Unix timestamp as a civil date and time: days are turned into a Gregorian
    date by arithmetic on 400-year eras that begin on 1 March. */
module Calendar {
  datatype Date = Date(year: int, month: int, day: int)
  datatype Stamp = Stamp(date: Date, hour: int, minute: int, second: int)

  const I64_MAX: int := 0x7fff_ffff_ffff_ffff

  // ---------------------------------------------------------------- the code's arithmetic

  function YearOfEra(doe: int): int {
    (doe - doe / 1460 + doe / 36524 - doe / 146096) / 365
  }

  function YearStart(yoe: int): int {
    365 * yoe + yoe / 4 - yoe / 100
  }

  function MonthStart(mp: int): int {
    (153 * mp + 2) / 5
  }

  function MonthPart(doy: int): int {
    (5 * doy + 2) / 153
  }

  function Assemble(era: int, yoe: int, doy: int): Date {
    var mp := MonthPart(doy);
    var day := doy - MonthStart(mp) + 1;
    var month := if mp < 10 then mp + 3 else mp - 9;
    Date(yoe + era * 400 + (if month <= 2 then 1 else 0), month, day)
  }

  /** The civil date of a day count from the epoch. */
  function CivilFromDays(days: nat): Date {
    var z := days + 719468;
    CivilInEra(z / 146097, z % 146097)
  }

  function CivilInEra(era: int, doe: int): Date {
    var yoe := YearOfEra(doe);
    Assemble(era, yoe, doe - YearStart(yoe))
  }

  function Clamp(secs: int): nat {
    if secs < 0 then 0 else secs
  }

  function UnixToStamp(secs: int): Stamp {
    var s := Clamp(secs);
    var rem := s % 86400;
    Stamp(CivilFromDays(s / 86400), rem / 3600, rem % 3600 / 60, rem % 60)
  }

  // ---------------------------------------------------------------- the calendar

  predicate IsLeap(year: int) {
    year % 4 == 0 && (year % 100 != 0 || year % 400 == 0)
  }

  function DaysInMonth(year: int, month: int): int {
    if month == 2 then (if IsLeap(year) then 29 else 28)
    else if month == 4 || month == 6 || month == 9 || month == 11 then 30
    else 31
  }

  predicate IsDate(d: Date) {
    1 <= d.month <= 12 && 1 <= d.day <= DaysInMonth(d.year, d.month)
  }

  function NextDay(d: Date): Date {
    if d.day < DaysInMonth(d.year, d.month) then d.(day := d.day + 1)
    else if d.month < 12 then Date(d.year, d.month + 1, 1)
    else Date(d.year + 1, 1, 1)
  }

  /** Days from 1 January 1970 to 1 January of `year`, counted year by year. */
  function DaysBeforeYear(year: int): int
    decreases year - 1970
  {
    if year <= 1970 then 0 else DaysBeforeYear(year - 1) + (if IsLeap(year - 1) then 366 else 365)
  }

  /** Days from 1 January to the first of `month`, counted month by month. */
  function DaysBeforeMonth(year: int, month: int): int
    decreases month
  {
    if month <= 1 then 0 else DaysBeforeMonth(year, month - 1) + DaysInMonth(year, month - 1)
  }

  function DayNumber(d: Date): int {
    DaysBeforeYear(d.year) + DaysBeforeMonth(d.year, d.month) + d.day - 1
  }

  // ---------------------------------------------------------------- within an era

  /** A year of the era that begins in March is long when the following civil year leaps. */
  predicate IsLong(yoe: int) {
    (yoe + 1) % 4 == 0 && ((yoe + 1) % 100 != 0 || yoe + 1 == 400)
  }

  function YearLength(yoe: int): int {
    if IsLong(yoe) then 366 else 365
  }

  /** The year formula on a day written out as centuries, four-year cycles, years, days. */
  lemma YearFormula(c: int, q: int, r: int, doy: int)
    requires 0 <= c <= 3 && 0 <= q <= 24 && 0 <= r <= 3 && 0 <= doy <= 365
    requires doy == 365 ==> r == 3 && (q < 24 || c == 3)
    ensures var doe := 36524 * c + 1461 * q + 365 * r + doy;
            YearOfEra(doe) == 100 * c + 4 * q + r && doe - YearStart(100 * c + 4 * q + r) == doy
            && 0 <= doe < 146097
  {
    var doe := 36524 * c + 1461 * q + 365 * r + doy;
    var y := 100 * c + 4 * q + r;
    assert y / 4 == 25 * c + q && y / 100 == c;
    var low := 24 * c + q + 365 * r + doy;
    assert doe == 1460 * (25 * c + q) + low;
    var e := if low >= 1460 then 1 else 0;
    assert doe / 1460 == 25 * c + q + e;
    var end := c == 3 && q == 24 && r == 3 && doy == 365;
    assert doe / 36524 == c + if end then 1 else 0;
    assert doe / 146096 == if end then 1 else 0;
    assert doe - doe / 1460 + doe / 36524 - doe / 146096 == 365 * y + (doy - e);
    assert 0 <= doy - e < 365;
  }

  /** Every day of an era falls in exactly the year the formula says. */
  lemma YearOfEraBounds(doe: int)
    requires 0 <= doe < 146097
    ensures var yoe := YearOfEra(doe);
            0 <= yoe <= 399 && 0 <= doe - YearStart(yoe) < YearLength(yoe)
  {
    var c := if doe / 36524 < 3 then doe / 36524 else 3;
    var inCentury := doe - 36524 * c;
    var q := if inCentury / 1461 < 24 then inCentury / 1461 else 24;
    var inCycle := inCentury - 1461 * q;
    var r := if inCycle / 365 < 3 then inCycle / 365 else 3;
    YearFormula(c, q, r, inCycle - 365 * r);
    LongYears(c, q, r);
  }

  lemma LongYears(c: int, q: int, r: int)
    requires 0 <= c <= 3 && 0 <= q <= 24 && 0 <= r <= 3
    ensures IsLong(100 * c + 4 * q + r) <==> r == 3 && (q < 24 || c == 3)
  {
    var y := 100 * c + 4 * q + r;
    assert (y + 1) % 4 == (r + 1) % 4;
    assert (y + 1) % 100 == 0 <==> q == 24 && r == 3;
  }

  /** The year and day of year determine the formula's answer. */
  lemma YearOfEraUnique(yoe: int, doy: int)
    requires 0 <= yoe <= 399 && 0 <= doy < YearLength(yoe)
    ensures YearOfEra(YearStart(yoe) + doy) == yoe && 0 <= YearStart(yoe) + doy < 146097
  {
    var c, q, r := yoe / 100, yoe % 100 / 4, yoe % 4;
    assert yoe == 100 * c + 4 * q + r;
    LongYears(c, q, r);
    YearFormula(c, q, r, doy);
  }

  lemma YearEnds(yoe: int)
    requires 0 <= yoe <= 399
    ensures YearStart(yoe) + YearLength(yoe) == if yoe < 399 then YearStart(yoe + 1) else 146097
  {
    var c, q, r := yoe / 100, yoe % 100 / 4, yoe % 4;
    assert yoe == 100 * c + 4 * q + r;
    LongYears(c, q, r);
    assert yoe / 4 == 25 * c + q && yoe / 100 == c;
    assert (yoe + 1) / 4 == 25 * c + q + if r == 3 then 1 else 0;
    assert (yoe + 1) / 100 == c + if q == 24 && r == 3 then 1 else 0;
  }

  // ---------------------------------------------------------------- within a year

  lemma MonthBounds(doy: int)
    requires 0 <= doy <= 365
    ensures var mp := MonthPart(doy);
            0 <= mp <= 11 && MonthStart(mp) <= doy && (mp < 11 ==> doy < MonthStart(mp + 1))
  {
  }

  lemma MonthUnique(mp: int, doy: int)
    requires 0 <= mp <= 11 && MonthStart(mp) <= doy <= 365 && (mp < 11 ==> doy < MonthStart(mp + 1))
    ensures MonthPart(doy) == mp
  {
  }

  lemma LeapIsLong(era: int, yoe: int)
    requires 0 <= yoe <= 399
    ensures IsLeap(yoe + 1 + era * 400) <==> IsLong(yoe)
  {
    var y, x := yoe + 1 + era * 400, yoe + 1;
    Mod4(x, 100 * era);
    Mod100(x, 4 * era);
    Mod400(x, era);
    assert y == x + 4 * (100 * era) == x + 100 * (4 * era) == x + 400 * era;
    assert x % 400 == 0 <==> x == 400;
  }

  lemma Mod4(x: int, k: int)
    ensures (x + 4 * k) % 4 == x % 4
  {
  }

  lemma Mod100(x: int, k: int)
    ensures (x + 100 * k) % 100 == x % 100
  {
  }

  lemma Mod400(x: int, k: int)
    ensures (x + 400 * k) % 400 == x % 400
  {
  }

  /** The month at `mp`, and its length in a year with this February. */
  lemma MonthTable(mp: int)
    requires 0 <= mp <= 11
    ensures var month := if mp < 10 then mp + 3 else mp - 9;
            1 <= month <= 12
            && (mp == 11 <==> month == 2)
            && (mp < 11 ==> MonthStart(mp + 1) - MonthStart(mp) == DaysInMonth(1, month))
            && MonthStart(11) == 337
  {
  }

  /** How many days the month at `mp` has, as the calendar counts them. */
  lemma MonthLengths(era: int, yoe: int, mp: int)
    requires 0 <= yoe <= 399 && 0 <= mp <= 11
    ensures var month := if mp < 10 then mp + 3 else mp - 9;
            var year := yoe + era * 400 + (if month <= 2 then 1 else 0);
            && 1 <= month <= 12
            && DaysInMonth(year, month)
               == (if mp < 11 then MonthStart(mp + 1) else YearLength(yoe)) - MonthStart(mp)
  {
    MonthTable(mp);
    LeapIsLong(era, yoe);
  }

  lemma AssembleIsDate(era: int, yoe: int, doy: int)
    requires 0 <= yoe <= 399 && 0 <= doy < YearLength(yoe)
    ensures IsDate(Assemble(era, yoe, doy))
  {
    MonthBounds(doy);
    MonthLengths(era, yoe, MonthPart(doy));
  }

  /** The next day of the same March-based year. */
  lemma NextInYear(era: int, yoe: int, doy: int)
    requires 0 <= yoe <= 399 && 0 <= doy && doy + 1 < YearLength(yoe)
    ensures Assemble(era, yoe, doy + 1) == NextDay(Assemble(era, yoe, doy))
  {
    var mp := MonthPart(doy);
    MonthBounds(doy);
    MonthLengths(era, yoe, mp);
    if mp == 11 || doy + 1 < MonthStart(mp + 1) {
      MonthUnique(mp, doy + 1);
    } else {
      MonthUnique(mp + 1, doy + 1);
    }
  }

  /** The last day of February is followed by 1 March, in the next year or the next era. */
  lemma NextYear(era: int, yoe: int)
    requires 0 <= yoe <= 399
    ensures NextDay(Assemble(era, yoe, YearLength(yoe) - 1))
         == if yoe < 399 then Assemble(era, yoe + 1, 0) else Assemble(era + 1, 0, 0)
  {
    MonthUnique(11, YearLength(yoe) - 1);
    MonthUnique(0, 0);
    MonthLengths(era, yoe, 11);
  }

  // ---------------------------------------------------------------- theorems

  /** Every day count renders a valid Gregorian date. */
  lemma RendersDate(days: nat)
    ensures IsDate(CivilFromDays(days))
  {
    var z := days + 719468;
    YearOfEraBounds(z % 146097);
    AssembleIsDate(z / 146097, YearOfEra(z % 146097), z % 146097 - YearStart(YearOfEra(z % 146097)));
  }

  /** The next day count renders the calendar successor, across leap days, century years
      and era boundaries alike. */
  lemma RendersSuccessor(days: nat)
    ensures CivilFromDays(days + 1) == NextDay(CivilFromDays(days))
  {
    var era, doe := (days + 719468) / 146097, (days + 719468) % 146097;
    if doe < 146096 {
      NextInSameEra(days, era, doe);
    } else {
      NextInNewEra(days, era);
    }
  }

  lemma Unpack(days: nat, era: int, doe: int)
    requires 0 <= doe < 146097 && days + 719468 == 146097 * era + doe
    ensures CivilFromDays(days) == CivilInEra(era, doe)
  {
    assert (days + 719468) / 146097 == era && (days + 719468) % 146097 == doe;
  }

  lemma NextInSameEra(days: nat, era: int, doe: int)
    requires 0 <= doe < 146096 && days + 719468 == 146097 * era + doe
    ensures CivilFromDays(days + 1) == NextDay(CivilFromDays(days))
  {
    Unpack(days, era, doe);
    Unpack(days + 1, era, doe + 1);
    NextInEra(era, doe);
  }

  lemma NextInNewEra(days: nat, era: int)
    requires days + 719468 == 146097 * era + 146096
    ensures CivilFromDays(days + 1) == NextDay(CivilFromDays(days))
  {
    Unpack(days, era, 146096);
    Unpack(days + 1, era + 1, 0);
    NextInEra(era, 146096);
  }

  lemma InEra(era: int, yoe: int, doy: int)
    requires 0 <= yoe <= 399 && 0 <= doy < YearLength(yoe)
    ensures CivilInEra(era, YearStart(yoe) + doy) == Assemble(era, yoe, doy)
  {
    YearOfEraUnique(yoe, doy);
  }

  lemma NextInEra(era: int, doe: int)
    requires 0 <= doe < 146097
    ensures doe < 146096 ==> NextDay(CivilInEra(era, doe)) == CivilInEra(era, doe + 1)
    ensures doe == 146096 ==> NextDay(CivilInEra(era, doe)) == CivilInEra(era + 1, 0)
  {
    var yoe := YearOfEra(doe);
    YearOfEraBounds(doe);
    var doy := doe - YearStart(yoe);
    if doy + 1 < YearLength(yoe) {
      NextSameYear(era, yoe, doy, doe);
    } else if yoe < 399 {
      NextNewYear(era, yoe, doe);
    } else {
      NextNewEra(era, doe);
    }
  }

  lemma NextSameYear(era: int, yoe: int, doy: int, doe: int)
    requires 0 <= yoe <= 399 && 0 <= doy && doy + 1 < YearLength(yoe) && doe == YearStart(yoe) + doy
    ensures doe < 146096 && NextDay(CivilInEra(era, doe)) == CivilInEra(era, doe + 1)
  {
    InEra(era, yoe, doy);
    InEra(era, yoe, doy + 1);
    YearOfEraUnique(yoe, doy + 1);
    NextInYear(era, yoe, doy);
  }

  lemma LastOfYear(era: int, yoe: int, doe: int)
    requires 0 <= yoe <= 399 && doe == YearStart(yoe) + YearLength(yoe) - 1
    ensures CivilInEra(era, doe) == Assemble(era, yoe, YearLength(yoe) - 1)
  {
    InEra(era, yoe, YearLength(yoe) - 1);
  }

  lemma FirstOfYear(era: int, yoe: int, doe: int)
    requires 0 <= yoe <= 399 && doe == YearStart(yoe)
    ensures CivilInEra(era, doe) == Assemble(era, yoe, 0) && doe < 146097
  {
    InEra(era, yoe, 0);
    YearOfEraUnique(yoe, 0);
  }

  lemma YearEndsAt(yoe: int, doe: int)
    requires 0 <= yoe <= 399 && doe == YearStart(yoe) + YearLength(yoe) - 1
    ensures yoe < 399 ==> doe + 1 == YearStart(yoe + 1)
    ensures yoe == 399 ==> doe == 146096
  {
    YearEnds(yoe);
  }

  lemma NextNewYear(era: int, yoe: int, doe: int)
    requires 0 <= yoe < 399 && doe == YearStart(yoe) + YearLength(yoe) - 1
    ensures doe < 146096 && NextDay(CivilInEra(era, doe)) == CivilInEra(era, doe + 1)
  {
    YearEndsAt(yoe, doe);
    LastOfYear(era, yoe, doe);
    FirstOfYear(era, yoe + 1, doe + 1);
    NextYear(era, yoe);
  }

  lemma NextNewEra(era: int, doe: int)
    requires doe == YearStart(399) + YearLength(399) - 1
    ensures doe == 146096 && NextDay(CivilInEra(era, doe)) == CivilInEra(era + 1, 0)
  {
    YearEndsAt(399, doe);
    LastOfYear(era, 399, doe);
    FirstOfYear(era + 1, 0, 0);
    NextYear(era, 399);
  }

  lemma NextDayCounts(d: Date)
    requires IsDate(d) && d.year >= 1970
    ensures DayNumber(NextDay(d)) == DayNumber(d) + 1
  {
    if d.month == 12 && d.day == 31 {
      YearAdds(d.year);
    }
  }

  lemma YearAdds(year: int)
    ensures DaysBeforeMonth(year, 12) + 31 == if IsLeap(year) then 366 else 365
  {
    assert DaysBeforeMonth(year, 3) == 31 + DaysInMonth(year, 2);
    assert DaysBeforeMonth(year, 6) == DaysBeforeMonth(year, 3) + 92;
    assert DaysBeforeMonth(year, 9) == DaysBeforeMonth(year, 6) + 92;
    assert DaysBeforeMonth(year, 12) == DaysBeforeMonth(year, 9) + 91;
  }

  lemma Epoch()
    ensures CivilFromDays(0) == Date(1970, 1, 1)
  {
    YearFormula(3, 17, 1, 306);
    assert 719468 / 146097 == 4 && 719468 % 146097 == 135080;
    assert MonthPart(306) == 10 && MonthStart(10) == 306;
  }

  /** `f` renders a valid date for day `n`, and its calendar successor for the next. */
  ghost predicate Advances(f: nat -> Date, n: nat) {
    IsDate(f(n)) && f(n + 1) == NextDay(f(n))
  }

  /** Any numbering of the days that starts at the epoch and advances by calendar
      successors is inverted by counting days year by year and month by month. */
  lemma {:induction false} CountingInverts(f: nat -> Date, days: nat)
    requires f(0) == Date(1970, 1, 1)
    requires forall n: nat :: Advances(f, n)
    ensures DayNumber(f(days)) == days && f(days).year >= 1970
  {
    if days > 0 {
      CountingInverts(f, days - 1);
      assert Advances(f, days - 1);
      CountsOn(f(days - 1), f(days));
    }
  }

  lemma CivilAdvances()
    ensures forall n: nat :: Advances(CivilFromDays, n)
  {
    forall n: nat ensures Advances(CivilFromDays, n) {
      RendersDate(n);
      RendersSuccessor(n);
    }
  }

  /** Counting a rendered date's days from the epoch gives back the day count it was
      rendered from. */
  lemma CountsBack(days: nat)
    ensures DayNumber(CivilFromDays(days)) == days
  {
    Epoch();
    CivilAdvances();
    CountingInverts(CivilFromDays, days);
  }

  lemma CountsOn(d: Date, next: Date)
    requires IsDate(d) && d.year >= 1970 && next == NextDay(d)
    ensures DayNumber(next) == DayNumber(d) + 1 && next.year >= 1970
  {
    NextDayCounts(d);
  }

  lemma TimeOfDay(rem: int)
    requires 0 <= rem < 86400
    ensures 0 <= rem / 3600 < 24 && 0 <= rem % 3600 / 60 < 60 && 0 <= rem % 60 < 60
    ensures rem / 3600 * 3600 + rem % 3600 / 60 * 60 + rem % 60 == rem
  {
    assert rem == 60 * (60 * (rem / 3600) + rem % 3600 / 60) + rem % 3600 % 60;
  }

  /** Recombining the rendered date and time recovers the clamped timestamp, so no two
      timestamps from the epoch on render alike; and the time is a time of day. */
  lemma StampRoundTrip(secs: int)
    ensures var t := UnixToStamp(secs);
            && IsDate(t.date) && 0 <= t.hour < 24 && 0 <= t.minute < 60 && 0 <= t.second < 60
            && DayNumber(t.date) * 86400 + t.hour * 3600 + t.minute * 60 + t.second
               == (if secs >= 0 then secs else 0)
  {
    var days := Clamp(secs) / 86400;
    RendersDate(days);
    CountsBack(days);
    TimeOfDay(Clamp(secs) % 86400);
    var date := CivilFromDays(days);
    assert UnixToStamp(secs).date == date && DayNumber(date) == days;
  }

  /** No intermediate value leaves the 64-bit range, for any 64-bit timestamp. */
  lemma FitsI64(secs: int)
    requires secs <= I64_MAX
    ensures var days := Clamp(secs) / 86400;
            var z := days + 719468;
            var doe := z % 146097;
            var yoe := YearOfEra(doe);
            var doy := doe - YearStart(yoe);
            && 0 <= z <= I64_MAX && 0 <= z / 146097 * 400 <= z <= I64_MAX
            && 0 <= doe - doe / 1460 + doe / 36524 - doe / 146096 <= doe + 4
            && 0 <= YearStart(yoe) <= doe && 0 <= 5 * doy + 2 <= 1832 && 0 <= 153 * MonthPart(doy) + 2 <= 1685
            && 0 <= CivilFromDays(days).year <= I64_MAX
  {
    var z := Clamp(secs) / 86400 + 719468;
    YearOfEraBounds(z % 146097);
    var doy := z % 146097 - YearStart(YearOfEra(z % 146097));
    MonthBounds(doy);
  }
}
