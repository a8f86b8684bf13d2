/** Closed-form conversion between Julian day numbers and Gregorian dates. */
module Date {
  import opened CInt

  datatype YearMonthDay = YearMonthDay(year: int, month: int, day: int)

  const DAYS_PER_WEEK := 7

  /** The day number of the first date the inverse conversion can produce: 1 March -4800. */
  const FIRST_DAY := -32044

  /** The largest day number for which `4 * a + 3` still fits in an int. */
  const LAST_DAY := 536838867

  function JulianDayNumber(year: int, month: int, day: int): int {
    var a := TruncDiv(14 - month, 12);
    var y := year + 4800 - a;
    var m := month + 12 * a - 3;
    day + TruncDiv(153 * m + 2, 5) + y * 365 + TruncDiv(y, 4) - TruncDiv(y, 100) + TruncDiv(y, 400) - 32045
  }

  /** The intermediate values of the inverse formula. */
  datatype Work = Work(a: int, b: int, c: int, d: int, e: int, m: int)

  function WorkOf(julianDayNumber: int): Work {
    var a := julianDayNumber + 32044;
    var b := TruncDiv(4 * a + 3, 146097);
    var c := a - TruncDiv(b * 146097, 4);
    var d := TruncDiv(4 * c + 3, 1461);
    var e := c - TruncDiv(1461 * d, 4);
    var m := TruncDiv(5 * e + 2, 153);
    Work(a, b, c, d, e, m)
  }

  function FromJulianDay(julianDayNumber: int): YearMonthDay {
    var w := WorkOf(julianDayNumber);
    YearMonthDay(w.b * 100 + w.d - 4800 + TruncDiv(w.m, 10),
                 w.m + 3 - 12 * TruncDiv(w.m, 10),
                 w.e - TruncDiv(153 * w.m + 2, 5) + 1)
  }

  function DayNumber(d: YearMonthDay): int {
    JulianDayNumber(d.year, d.month, d.day)
  }

  function WeekDay(julianDayNumber: int): int {
    TruncMod(julianDayNumber + 1, DAYS_PER_WEEK)
  }

  // ----- The Gregorian calendar, independently of the closed form -----

  predicate LeapYear(year: int) {
    year % 4 == 0 && (year % 100 != 0 || year % 400 == 0)
  }

  function DaysInMonth(year: int, month: int): int {
    if month == 2 then (if LeapYear(year) then 29 else 28)
    else if month in {4, 6, 9, 11} then 30
    else 31
  }

  predicate ValidDate(d: YearMonthDay) {
    1 <= d.month <= 12 && 1 <= d.day <= DaysInMonth(d.year, d.month)
  }

  /** On or after 1 March -4800. */
  predicate Representable(d: YearMonthDay) {
    d.year > -4800 || (d.year == -4800 && d.month >= 3)
  }

  function NextDate(d: YearMonthDay): YearMonthDay {
    if d.day < DaysInMonth(d.year, d.month) then d.(day := d.day + 1)
    else if d.month < 12 then YearMonthDay(d.year, d.month + 1, 1)
    else YearMonthDay(d.year + 1, 1, 1)
  }

  /** The date reached by turning the calendar page n times from 1 March -4800. */
  function DateAfter(n: nat): YearMonthDay {
    if n == 0 then YearMonthDay(-4800, 3, 1) else NextDate(DateAfter(n - 1))
  }

  // ----- Years that begin in March -----

  /** The year counted from -4800 that begins on 1 March. */
  function MarchYear(d: YearMonthDay): int {
    d.year + 4800 - (if d.month <= 2 then 1 else 0)
  }

  /** Month 0 is March, month 11 is February. */
  function MarchMonth(d: YearMonthDay): int {
    if d.month <= 2 then d.month + 9 else d.month - 3
  }

  function MonthStart(m: int): int {
    (153 * m + 2) / 5
  }

  function YearStart(y: int): int {
    365 * y + y / 4 - y / 100 + y / 400
  }

  /** The day of the March year, counted from 0. */
  function DayOfMarchYear(d: YearMonthDay): int {
    MonthStart(MarchMonth(d)) + d.day - 1
  }

  lemma DayNumberParts(d: YearMonthDay)
    requires ValidDate(d) && Representable(d)
    ensures DayNumber(d) == FIRST_DAY + YearStart(MarchYear(d)) + DayOfMarchYear(d)
    ensures MarchYear(d) >= 0 && 0 <= MarchMonth(d) <= 11
  {
    var y, m := MarchYear(d), MarchMonth(d);
    FirstQuotient(d.month);
    assert TruncDiv(y, 4) == y / 4 && TruncDiv(y, 100) == y / 100 && TruncDiv(y, 400) == y / 400;
    assert TruncDiv(153 * m + 2, 5) == MonthStart(m);
    hide TruncDiv, MonthStart, ValidDate;
  }

  lemma FirstQuotient(month: int)
    requires 1 <= month <= 12
    ensures TruncDiv(14 - month, 12) == if month <= 2 then 1 else 0
  {
  }

  // ----- The three divisions of the inverse formula, each the inverse of a start -----

  function CenturyStart(b: int): int {
    146097 * b / 4
  }

  /** Start of year r inside a century. */
  function YearInCenturyStart(r: int): int {
    1461 * r / 4
  }

  lemma CenturyOf(a: nat, b: nat)
    ensures CenturyStart(b) <= a < CenturyStart(b + 1) <==> (4 * a + 3) / 146097 == b
  {
  }

  lemma YearInCenturyOf(c: nat, r: nat)
    ensures YearInCenturyStart(r) <= c < YearInCenturyStart(r + 1) <==> (4 * c + 3) / 1461 == r
  {
  }

  lemma MonthOf(e: nat, m: nat)
    ensures MonthStart(m) <= e < MonthStart(m + 1) <==> (5 * e + 2) / 153 == m
  {
  }

  /** Century, year in the century, day of the March year, March month. */
  datatype Parts = Parts(b: int, r: int, e: int, m: int)

  predicate ValidParts(p: Parts) {
    p.b >= 0 && 0 <= p.r < 100 && 0 <= p.m <= 11 &&
    MonthStart(p.m) <= p.e < MonthStart(p.m + 1) &&
    p.e < YearInCenturyStart(p.r + 1) - YearInCenturyStart(p.r) &&
    YearInCenturyStart(p.r) + p.e < CenturyStart(p.b + 1) - CenturyStart(p.b)
  }

  function Assemble(p: Parts): YearMonthDay {
    YearMonthDay(100 * p.b + p.r - 4800 + p.m / 10, p.m + 3 - 12 * (p.m / 10), p.e - MonthStart(p.m) + 1)
  }

  function PartsDay(p: Parts): int {
    CenturyStart(p.b) + YearInCenturyStart(p.r) + p.e
  }

  lemma WorkOfParts(p: Parts)
    requires ValidParts(p)
    ensures WorkOf(PartsDay(p) + FIRST_DAY) ==
            Work(PartsDay(p), p.b, YearInCenturyStart(p.r) + p.e, p.r, p.e, p.m)
  {
    var a := PartsDay(p);
    var c := YearInCenturyStart(p.r) + p.e;
    assert TruncDiv(4 * a + 3, 146097) == p.b by { CenturyOf(a, p.b); }
    assert TruncDiv(4 * c + 3, 1461) == p.r by { YearInCenturyOf(c, p.r); }
    assert TruncDiv(5 * p.e + 2, 153) == p.m by { MonthOf(p.e, p.m); }
    assert TruncDiv(p.b * 146097, 4) == CenturyStart(p.b);
    assert TruncDiv(1461 * p.r, 4) == YearInCenturyStart(p.r);
    hide TruncDiv, CenturyStart, YearInCenturyStart;
  }

  lemma FromJulianDayOfParts(p: Parts)
    requires ValidParts(p)
    ensures FromJulianDay(PartsDay(p) + FIRST_DAY) == Assemble(p)
  {
    hide WorkOf, CenturyStart, YearInCenturyStart;
    WorkOfParts(p);
    assert TruncDiv(p.m, 10) == p.m / 10 && TruncDiv(153 * p.m + 2, 5) == MonthStart(p.m);
  }

  /** Every day number from FIRST_DAY on splits into valid parts. */
  function Split(a: nat): (p: Parts)
    ensures ValidParts(p) && PartsDay(p) == a
  {
    var b := (4 * a + 3) / 146097;
    assert CenturyStart(b) <= a < CenturyStart(b + 1) by { CenturyOf(a, b); }
    var c := a - CenturyStart(b);
    var r := (4 * c + 3) / 1461;
    assert YearInCenturyStart(r) <= c < YearInCenturyStart(r + 1) by { YearInCenturyOf(c, r); }
    var e := c - YearInCenturyStart(r);
    var m := (5 * e + 2) / 153;
    assert MonthStart(m) <= e < MonthStart(m + 1) by { MonthOf(e, m); }
    Parts(b, r, e, m)
  }

  lemma YearStartAtLeast(y: nat)
    ensures YearStart(y) >= 365 * y
  {
  }

  lemma QuartersOfYear(b: nat, r: nat)
    requires r < 100
    ensures (100 * b + r) / 4 == 25 * b + r / 4 && (100 * b + r) / 100 == b
  {
  }

  lemma FourHundreds(b: nat, r: nat)
    requires r < 100
    ensures (100 * b + r) / 400 == b / 4
  {
    var q := b / 4;
    assert 400 * q <= 100 * b + r < 400 * (q + 1);
  }

  lemma YearStartByCentury(b: nat, r: nat)
    requires r < 100
    ensures YearStart(100 * b + r) == CenturyStart(b) + YearInCenturyStart(r)
  {
    QuartersOfYear(b, r);
    FourHundreds(b, r);
    assert 146097 * b / 4 == 36524 * b + b / 4;
    assert 1461 * r / 4 == 365 * r + r / 4;
  }

  /** A March year ends with a leap day exactly when its century has room for one. */
  lemma LeapDay(b: nat, r: nat)
    requires r < 100
    ensures LeapYear(100 * b + r + 1 - 4800) <==>
            365 < YearInCenturyStart(r + 1) - YearInCenturyStart(r) &&
            YearInCenturyStart(r) + 365 < CenturyStart(b + 1) - CenturyStart(b)
  {
    CenturyLength(b);
    YearLengthInCentury(r);
    hide LeapYear, CenturyStart;
    if r == 99 {
      CenturyYear(b);
    } else {
      OrdinaryYear(b, r);
    }
  }

  lemma CenturyLength(b: nat)
    ensures CenturyStart(b + 1) - CenturyStart(b) == if b % 4 == 3 then 36525 else 36524
  {
  }

  lemma YearLengthInCentury(r: nat)
    ensures YearInCenturyStart(r + 1) - YearInCenturyStart(r) == if r % 4 == 3 then 366 else 365
  {
  }

  lemma CenturyYear(b: nat)
    ensures LeapYear(100 * b + 99 + 1 - 4800) <==> b % 4 == 3
  {
    HundredsLeap(b - 47);
    assert 100 * b + 99 + 1 - 4800 == 100 * (b - 47);
    hide LeapYear;
    assert (b - 47) % 4 == 0 <==> b % 4 == 3;
  }

  lemma HundredsLeap(k: int)
    ensures LeapYear(100 * k) <==> k % 4 == 0
  {
    HundredsBy400(k / 4, k % 4);
    assert 100 * k == 400 * (k / 4) + 100 * (k % 4);
    HundredsBy100(k);
  }

  lemma HundredsBy400(q: int, m: int)
    requires 0 <= m < 4
    ensures (400 * q + 100 * m) % 400 == 100 * m
  {
  }

  lemma HundredsBy100(k: int)
    ensures 100 * k % 100 == 0 && 100 * k % 4 == 0
  {
    QuadrupleBy4(25 * k);
  }

  lemma QuadrupleBy4(k: int)
    ensures 4 * k % 4 == 0
  {
  }

  lemma OrdinaryYear(b: nat, r: nat)
    requires r < 99
    ensures LeapYear(100 * b + r + 1 - 4800) <==> r % 4 == 3
  {
    var y := 100 * b + r + 1 - 4800;
    assert y % 4 == (r + 1) % 4 by { RemainderBy4(25 * b - 1200, r + 1); }
    assert y % 100 == r + 1 by { RemainderBy100(b - 48, r + 1); }
    assert (r + 1) % 4 == 0 <==> r % 4 == 3;
  }

  lemma RemainderBy4(q: int, r: int)
    ensures (4 * q + r) % 4 == r % 4
  {
  }

  lemma RemainderBy100(q: int, r: int)
    requires 0 <= r < 100
    ensures (100 * q + r) % 100 == r
  {
  }

  lemma OrdinaryDay(b: nat, r: nat)
    requires r < 100
    ensures 365 <= YearInCenturyStart(r + 1) - YearInCenturyStart(r) <= 366
    ensures YearInCenturyStart(r) + 364 < CenturyStart(b + 1) - CenturyStart(b)
  {
  }

  /** The lengths of the months from March to January. */
  lemma MonthLength(m: nat)
    requires m <= 11
    ensures m <= 10 ==> MonthStart(m + 1) - MonthStart(m) == if m in {1, 3, 6, 8} then 30 else 31
  {
  }

  /** The valid parts are exactly the real dates from 1 March -4800 on. */
  lemma AssembleValid(p: Parts)
    requires ValidParts(p)
    ensures ValidDate(Assemble(p)) && Representable(Assemble(p))
    ensures DayNumber(Assemble(p)) == PartsDay(p) + FIRST_DAY
  {
    hide YearStart, CenturyStart, YearInCenturyStart, LeapYear, DayNumber;
    var d := Assemble(p);
    AssembleParts(p);
    AssembleValidDate(p);
    DayNumberParts(d);
    YearStartByCentury(p.b, p.r);
    hide MarchYear, MarchMonth, DayOfMarchYear, ValidDate, Assemble, MonthStart;
  }

  lemma AssembleParts(p: Parts)
    requires p.b >= 0 && p.r >= 0 && 0 <= p.m <= 11
    ensures var d := Assemble(p);
            Representable(d) && MarchYear(d) == 100 * p.b + p.r && MarchMonth(d) == p.m && DayOfMarchYear(d) == p.e
  {
    hide MonthStart;
    assert p.m / 10 == if p.m >= 10 then 1 else 0;
  }

  lemma AssembleValidDate(p: Parts)
    requires ValidParts(p)
    ensures ValidDate(Assemble(p))
  {
    LeapDay(p.b, p.r);
    OrdinaryDay(p.b, p.r);
    MonthLength(p.m);
    assert p.e <= 365 && MonthStart(11) == 337;
    assert p.m / 10 == if p.m >= 10 then 1 else 0;
    hide CenturyStart, YearInCenturyStart, LeapYear, MonthStart;
  }

  function Disassemble(d: YearMonthDay): Parts {
    Parts(MarchYear(d) / 100, MarchYear(d) % 100, DayOfMarchYear(d), MarchMonth(d))
  }

  lemma DisassembleValid(d: YearMonthDay)
    requires ValidDate(d) && Representable(d)
    ensures ValidParts(Disassemble(d)) && Assemble(Disassemble(d)) == d
    ensures PartsDay(Disassemble(d)) + FIRST_DAY == DayNumber(d) >= FIRST_DAY
  {
    DayNumberParts(d);
    AssembleDisassemble(d);
    YearStartAtLeast(MarchYear(d));
    assert DayOfMarchYear(d) >= 0;
    var y := MarchYear(d);
    assert y == 100 * (y / 100) + y % 100 && y / 100 >= 0;
    hide DayNumber, YearStart, ValidDate, Representable, ValidParts, PartsDay, Assemble, MonthStart, DayOfMarchYear;
    DisassembleAt(d, y / 100, y % 100);
  }

  lemma DisassembleAt(d: YearMonthDay, b: nat, r: nat)
    requires ValidDate(d) && Representable(d) && MarchYear(d) == 100 * b + r && r < 100
    ensures var p := Parts(b, r, DayOfMarchYear(d), MarchMonth(d));
            ValidParts(p) && PartsDay(p) + FIRST_DAY == DayNumber(d)
  {
    MonthDay(d);
    DayNumberParts(d);
    YearRoom(b, r, DayOfMarchYear(d));
    YearStartByCentury(b, r);
    hide DayNumber, YearStart, CenturyStart, YearInCenturyStart, LeapYear, ValidDate, MonthStart,
         MarchYear, MarchMonth, DayOfMarchYear;
  }

  /** A March year has room for a day number, if the 366th day is a leap day. */
  lemma YearRoom(b: nat, r: nat, e: nat)
    requires r < 100 && e <= 365 && (e == 365 ==> LeapYear(100 * b + r + 1 - 4800))
    ensures e < YearInCenturyStart(r + 1) - YearInCenturyStart(r)
    ensures YearInCenturyStart(r) + e < CenturyStart(b + 1) - CenturyStart(b)
  {
    LeapDay(b, r);
    OrdinaryDay(b, r);
    hide LeapYear, CenturyStart, YearInCenturyStart;
  }

  lemma AssembleDisassemble(d: YearMonthDay)
    requires 1 <= d.month <= 12
    ensures Assemble(Disassemble(d)) == d
  {
    hide MonthStart;
    var y := MarchYear(d);
    assert 100 * (y / 100) + y % 100 == y;
    assert MarchMonth(d) / 10 == if d.month <= 2 then 1 else 0;
  }

  /** A day is inside its month, and the 366th day of a March year is a leap day. */
  lemma MonthDay(d: YearMonthDay)
    requires ValidDate(d)
    ensures var m, e := MarchMonth(d), DayOfMarchYear(d);
            0 <= m <= 11 && MonthStart(m) <= e < MonthStart(m + 1) && 0 <= e <= 365 &&
            (e == 365 ==> d.month == 2 && LeapYear(d.year))
  {
    hide LeapYear;
    MonthLength(MarchMonth(d));
    assert MonthStart(11) == 337 && MonthStart(12) == 367;
  }

  // ----- Main results -----

  /** Day number, then date: the original date, for every valid date from 1 March -4800 on. */
  lemma DateRoundTrip(d: YearMonthDay)
    requires ValidDate(d) && Representable(d)
    ensures FromJulianDay(DayNumber(d)) == d
    ensures DayNumber(d) >= FIRST_DAY
  {
    hide *;
    DisassembleValid(d);
    FromJulianDayOfParts(Disassemble(d));
  }

  /** Date, then day number: the original day number, and the date is a real one. */
  lemma DayRoundTrip(j: int)
    requires j >= FIRST_DAY
    ensures ValidDate(FromJulianDay(j)) && Representable(FromJulianDay(j))
    ensures DayNumber(FromJulianDay(j)) == j
  {
    var p := Split(j - FIRST_DAY);
    FromJulianDayOfParts(p);
    AssembleValid(p);
  }

  /** Before FIRST_DAY the truncating divisions leave a day of the month below 1. */
  lemma BeforeFirstDayIsInvalid(j: int)
    requires j < FIRST_DAY
    ensures FromJulianDay(j).day < 1
  {
    var w := WorkOf(j);
    assert w.c < 0;
    assert w.e < 0;
    hide WorkOf;
    assert w.m == TruncDiv(5 * w.e + 2, 153);
  }

  /** Exactly which day numbers have a date. */
  lemma FromJulianDayExact(j: int)
    ensures ValidDate(FromJulianDay(j)) <==> j >= FIRST_DAY
  {
    if j >= FIRST_DAY {
      DayRoundTrip(j);
    } else {
      BeforeFirstDayIsInvalid(j);
    }
  }

  /** Exactly which dates survive the round trip: those from 1 March -4800 on. */
  lemma DateRoundTripExact(d: YearMonthDay)
    requires ValidDate(d)
    ensures FromJulianDay(DayNumber(d)) == d <==> Representable(d)
  {
    if Representable(d) {
      DateRoundTrip(d);
    } else if DayNumber(d) >= FIRST_DAY {
      DayRoundTrip(DayNumber(d));
    } else {
      BeforeFirstDayIsInvalid(DayNumber(d));
    }
  }

  /** The closed form counts days: the next date has the next number. */
  lemma NextDateNumber(d: YearMonthDay)
    requires ValidDate(d) && Representable(d)
    ensures ValidDate(NextDate(d)) && Representable(NextDate(d))
    ensures DayNumber(NextDate(d)) == DayNumber(d) + 1
  {
    hide DayNumber, YearStart, LeapYear;
    var n := NextDate(d);
    DayNumberParts(d);
    DayNumberParts(n);
    if d.month == 2 && n.month == 3 {
      YearLength(MarchYear(d));
    }
  }

  lemma YearLength(y: nat)
    ensures YearStart(y + 1) - YearStart(y) == if LeapYear(y + 1 - 4800) then 366 else 365
  {
    var b, r := y / 100, y % 100;
    YearStartByCentury(b, r);
    if r < 99 {
      YearStartByCentury(b, r + 1);
      YearLengthInCentury(r);
      OrdinaryYear(b, r);
    } else {
      YearStartByCentury(b + 1, 0);
      CenturyLength(b);
      CenturyYear(b);
      assert YearInCenturyStart(0) == 0 && YearInCenturyStart(99) == 36159;
    }
    assert y == 100 * b + r;
    hide YearStart, LeapYear, CenturyStart, YearInCenturyStart;
  }

  lemma FirstDate(d: YearMonthDay)
    requires d == YearMonthDay(-4800, 3, 1)
    ensures ValidDate(d) && Representable(d) && DayNumber(d) == FIRST_DAY
  {
  }

  /** The inverse formula agrees with counting calendar pages from 1 March -4800. */
  lemma {:induction false} FromJulianDayCounts(n: nat)
    ensures FromJulianDay(n + FIRST_DAY) == DateAfter(n)
  {
    hide FromJulianDay, DayNumber, NextDate, ValidDate, Representable;
    if n == 0 {
      FirstDate(DateAfter(0));
      DateRoundTrip(DateAfter(0));
    } else {
      FromJulianDayCounts(n - 1);
      DayRoundTrip(n - 1 + FIRST_DAY);
      NextDateNumber(DateAfter(n - 1));
      DateRoundTrip(DateAfter(n));
    }
  }

  // ----- 32-bit arithmetic -----

  /** No intermediate value of the inverse formula leaves the range of int. */
  predicate FromJulianDayFits(j: int) {
    var w := WorkOf(j);
    Int32(w.a) && Int32(4 * w.a) && Int32(4 * w.a + 3) && Int32(w.b * 146097) && Int32(w.c) &&
    Int32(4 * w.c + 3) && Int32(1461 * w.d) && Int32(w.e) && Int32(5 * w.e + 2) && Int32(153 * w.m + 2) &&
    Int32(w.b * 100 + w.d)
  }

  lemma FromJulianDayOverflow(j: int)
    requires j >= FIRST_DAY
    ensures FromJulianDayFits(j) <==> j <= LAST_DAY
  {
    hide WorkOf, Split;
    var p := Split(j - FIRST_DAY);
    WorkOfParts(p);
    CenturyBelow(p.b);
  }

  lemma CenturyBelow(b: nat)
    ensures 146097 * b <= 4 * CenturyStart(b) + 3
  {
  }

  /** No partial sum of the closed form leaves the range of int. */
  predicate JulianDayNumberFits(d: YearMonthDay) {
    var a := TruncDiv(14 - d.month, 12);
    Int32(d.year + 4800) && SumsFit(d.year + 4800 - a, d.month + 12 * a - 3, d.day)
  }

  predicate SumsFit(y: int, m: int, day: int) {
    var s := day + TruncDiv(153 * m + 2, 5);
    Int32(y) && Int32(y * 365) && Int32(s + y * 365) &&
    Int32(s + y * 365 + TruncDiv(y, 4)) &&
    Int32(s + y * 365 + TruncDiv(y, 4) - TruncDiv(y, 100)) &&
    Int32(s + y * 365 + TruncDiv(y, 4) - TruncDiv(y, 100) + TruncDiv(y, 400))
  }

  /** Every date with a day number up to LAST_DAY is converted without overflow. */
  lemma JulianDayNumberOverflow(d: YearMonthDay)
    requires ValidDate(d) && Representable(d) && DayNumber(d) <= LAST_DAY
    ensures JulianDayNumberFits(d)
  {
    hide DayNumber, SumsFit;
    FirstQuotient(d.month);
    YearBounded(d);
    hide TruncDiv, ValidDate, Representable;
    MarchYearFits(MarchYear(d), MarchMonth(d), d.day);
  }

  /** The last date that JulianDayNumber converts without overflow is 15 December 5874689. */
  const LAST_MARCH_YEAR := 5879489
  const LAST_DATE := YearMonthDay(5874689, 12, 15)

  predicate UpToLastDate(d: YearMonthDay) {
    MarchYear(d) < LAST_MARCH_YEAR ||
    (MarchYear(d) == LAST_MARCH_YEAR && DayOfMarchYear(d) <= DayOfMarchYear(LAST_DATE))
  }

  /** For every valid date from 1 March -4800 on, no partial sum overflows iff it is not after that date. */
  lemma JulianDayNumberFitsExact(d: YearMonthDay)
    requires ValidDate(d) && Representable(d)
    ensures JulianDayNumberFits(d) <==> UpToLastDate(d)
  {
    hide SumsFit, ValidDate, LeapYear;
    DayInMonth(d);
    MonthDay(d);
    FirstQuotient(d.month);
    assert MarchYear(LAST_DATE) == LAST_MARCH_YEAR && DayOfMarchYear(LAST_DATE) == 289;
    SumsFitExact(MarchYear(d), MarchMonth(d), d.day);
    hide TruncDiv;
  }

  lemma DayInMonth(d: YearMonthDay)
    requires ValidDate(d)
    ensures 1 <= d.month <= 12 && 1 <= d.day <= 31
  {
  }

  /** The largest partial sum is the one before the centuries are taken off. */
  lemma SumsFitExact(y: nat, m: nat, day: nat)
    requires m <= 11 && day <= 31
    ensures SumsFit(y, m, day) <==>
            y < LAST_MARCH_YEAR || (y == LAST_MARCH_YEAR && MonthStart(m) + day - 1 <= 289)
  {
    var s := day + TruncDiv(153 * m + 2, 5);
    assert TruncDiv(153 * m + 2, 5) == MonthStart(m) && 0 <= MonthStart(m) <= 337;
    assert TruncDiv(y, 4) == y / 4 && 0 <= y / 100 - y / 400 <= y / 4;
    assert TruncDiv(y, 100) == y / 100 && TruncDiv(y, 400) == y / 400;
    hide TruncDiv, MonthStart;
    assert SumsFit(y, m, day) <==> s + y * 365 + y / 4 < 0x8000_0000;
  }

  lemma YearBounded(d: YearMonthDay)
    requires ValidDate(d) && Representable(d) && DayNumber(d) <= LAST_DAY
    ensures 0 <= 365 * MarchYear(d) <= LAST_DAY - FIRST_DAY && 0 <= MarchMonth(d) <= 11 && 1 <= d.day <= 31
  {
    DayNumberParts(d);
    YearStartAtLeast(MarchYear(d));
    hide DayNumber, YearStart, MarchYear;
  }

  /** The partial sums of a year that starts by the last day, whatever its month and day. */
  lemma MarchYearFits(y: nat, m: nat, day: nat)
    requires m <= 11 && day <= 31 && 365 * y <= LAST_DAY - FIRST_DAY
    ensures SumsFit(y, m, day)
  {
    DividedYear(y, m);
    hide TruncDiv;
  }

  lemma DividedYear(y: nat, m: nat)
    requires m <= 11
    ensures 0 <= TruncDiv(y, 4) <= y && 0 <= TruncDiv(y, 100) <= y && 0 <= TruncDiv(y, 400) <= y
    ensures 0 <= TruncDiv(153 * m + 2, 5) <= 400
  {
  }

  // ----- Days of the week -----

  /** From day -1 on the weekday is in 0..6 and advances by one each day, Saturday to Sunday. */
  lemma WeekDayAdvances(j: int)
    ensures 0 <= WeekDay(j) <= 6 <==> j >= -1 || (j + 1) % 7 == 0
    ensures j >= -1 ==> WeekDay(j + 1) == (WeekDay(j) + 1) % 7
    ensures j < -1 ==> WeekDay(j) == (if (j + 1) % 7 == 0 then 0 else (j + 1) % 7 - 7)
  {
  }
}
