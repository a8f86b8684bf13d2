/** Broken-down UTC times, and local times of a zone with daylight-saving transitions. */
module TimeZone {
  import opened CInt
  import opened Date

  const SECONDS_PER_DAY := 24 * 60 * 60

  const EPOCH_DAY := JulianDayNumber(1970, 1, 1)

  datatype Tm = Tm(sec: int, min: int, hour: int, mday: int, mon: int, year: int,
                   wday: int, yday: int, isdst: bool, gmtoff: int)

  // ----- UTC -----

  /** The Julian day of a time; days begin at midnight also before 1970. */
  function JulianDayOf(t: int): int {
    t / SECONDS_PER_DAY + EPOCH_DAY
  }

  predicate UtcRange(t: int) {
    FIRST_DAY <= JulianDayOf(t) <= LAST_DAY
  }

  function UtcOf(t: int, yday: bool): Tm {
    var secs := t % SECONDS_PER_DAY;
    var day := JulianDayOf(t);
    var ymd := FromJulianDay(day);
    Tm(secs % 60, secs / 60 % 60, secs / 3600, ymd.day, ymd.month - 1, ymd.year - 1900, WeekDay(day),
       if yday then day - JulianDayNumber(ymd.year, 1, 1) else 0, false, 0)
  }

  function FromUtc(year: int, month: int, day: int, hour: int, minute: int, seconds: int): int {
    (JulianDayNumber(year, month, day) - EPOCH_DAY) * SECONDS_PER_DAY + (hour * 3600 + minute * 60 + seconds)
  }

  function FromUtcTm(utc: Tm): int {
    FromUtc(utc.year + 1900, utc.mon + 1, utc.mday, utc.hour, utc.min, utc.sec)
  }

  method FillHMS(seconds: nat, utc: Tm) returns (r: Tm)
    requires seconds < SECONDS_PER_DAY
    ensures r == utc.(sec := r.sec, min := r.min, hour := r.hour)
    ensures 0 <= r.sec < 60 && 0 <= r.min < 60 && 0 <= r.hour < 24
    ensures r.hour * 3600 + r.min * 60 + r.sec == seconds
  {
    r := utc.(sec := seconds % 60);
    var minutes := seconds / 60;
    r := r.(min := minutes % 60);
    r := r.(hour := minutes / 60);
  }

  lemma HmsUnique(seconds: nat, h: int, m: int, s: int)
    requires 0 <= s < 60 && 0 <= m < 60 && h * 3600 + m * 60 + s == seconds
    ensures s == seconds % 60 && m == seconds / 60 % 60 && h == seconds / 3600
  {
  }

  /** Truncating division, corrected by one for negative remainders, is floor division. */
  lemma FloorByTruncation(t: int)
    ensures var s, d := TruncMod(t, SECONDS_PER_DAY), TruncDiv(t, SECONDS_PER_DAY);
            -SECONDS_PER_DAY < s < SECONDS_PER_DAY && d - 1 <= t / SECONDS_PER_DAY <= d &&
            (if s < 0 then s + SECONDS_PER_DAY == t % SECONDS_PER_DAY && d - 1 == t / SECONDS_PER_DAY
             else s == t % SECONDS_PER_DAY && d == t / SECONDS_PER_DAY)
  {
  }

  lemma CastKeeps(x: int)
    requires Int32(x)
    ensures WrapInt32(x) == x
  {
  }

  lemma DaysFit(t: int)
    requires UtcRange(t)
    ensures Int32(t / SECONDS_PER_DAY) && Int32(t / SECONDS_PER_DAY + 1)
  {
    assert EPOCH_DAY == 2440588;
  }

  /** C++ division truncates, so times before 1970 are corrected by a day; the result is floor division. */
  method ToUtcTime(secondsSinceEpoch: int, yday: bool) returns (utc: Tm)
    ensures UtcRange(secondsSinceEpoch) ==> utc == UtcOf(secondsSinceEpoch, yday)
  {
    hide FromJulianDay, JulianDayNumber, WeekDay, TruncMod, TruncDiv, WrapInt32;
    utc := Tm(0, 0, 0, 0, 0, 0, 0, 0, false, 0);
    FloorByTruncation(secondsSinceEpoch);
    CastKeeps(TruncMod(secondsSinceEpoch, SECONDS_PER_DAY));
    if UtcRange(secondsSinceEpoch) {
      DaysFit(secondsSinceEpoch);
      CastKeeps(TruncDiv(secondsSinceEpoch, SECONDS_PER_DAY));
    }
    var seconds := WrapInt32(TruncMod(secondsSinceEpoch, SECONDS_PER_DAY));
    var days := WrapInt32(TruncDiv(secondsSinceEpoch, SECONDS_PER_DAY));
    if seconds < 0 {
      seconds := seconds + SECONDS_PER_DAY;
      days := days - 1;
    }
    utc := FillHMS(seconds, utc);
    HmsUnique(seconds, utc.hour, utc.min, utc.sec);
    var julianDay := days + EPOCH_DAY;
    var ymd := FromJulianDay(julianDay);
    utc := utc.(year := ymd.year - 1900);
    utc := utc.(mon := ymd.month - 1);
    utc := utc.(mday := ymd.day);
    utc := utc.(wday := WeekDay(julianDay));
    if yday {
      utc := utc.(yday := julianDay - JulianDayNumber(ymd.year, 1, 1));
    }
  }

  /** Breaking a time down and building it up again gives the same time, also before 1970. */
  lemma UtcRoundTrip(t: int, yday: bool)
    requires JulianDayOf(t) >= FIRST_DAY
    ensures FromUtcTm(UtcOf(t, yday)) == t
  {
    hide FromJulianDay, JulianDayNumber;
    DayRoundTrip(JulianDayOf(t));
    var secs := t % SECONDS_PER_DAY;
    assert secs / 3600 * 3600 + secs / 60 % 60 * 60 + secs % 60 == secs;
  }

  /** Composing a time counts seconds from the epoch, calendar page by calendar page; no field need be in its range. */
  lemma FromUtcCounts(d: YearMonthDay, hour: int, minute: int, seconds: int)
    requires ValidDate(d) && Representable(d)
    ensures FromUtc(1970, 1, 1, 0, 0, 0) == 0
    ensures var n := NextDate(d);
            FromUtc(n.year, n.month, n.day, 0, 0, 0) == FromUtc(d.year, d.month, d.day, 0, 0, 0) + 86400
    ensures FromUtc(d.year, d.month, d.day, hour, minute, seconds) ==
            FromUtc(d.year, d.month, d.day, 0, 0, 0) + 3600 * hour + 60 * minute + seconds
  {
    hide JulianDayNumber, NextDate;
    NextDateNumber(d);
  }

  /** All fields are in the ranges of struct tm, except the weekday before day -1. */
  lemma UtcFieldRanges(t: int)
    requires JulianDayOf(t) >= FIRST_DAY
    ensures var u := UtcOf(t, true);
            0 <= u.sec < 60 && 0 <= u.min < 60 && 0 <= u.hour < 24 &&
            0 <= u.mon <= 11 && 1 <= u.mday <= DaysInMonth(u.year + 1900, u.mon + 1) && 0 <= u.yday <= 365
    ensures UtcOf(t, false) == UtcOf(t, true).(yday := 0)
    ensures 0 <= UtcOf(t, true).wday <= 6 <==> JulianDayOf(t) >= -1 || (JulianDayOf(t) + 1) % 7 == 0
  {
    hide FromJulianDay, JulianDayNumber, DayOfYear, WeekDay;
    DayRoundTrip(JulianDayOf(t));
    WeekDayAdvances(JulianDayOf(t));
    YdayValue(t);
  }

  /** One day later the weekday is the next one and the time of day is the same. */
  lemma UtcNextDay(t: int, yday: bool)
    requires JulianDayOf(t) >= -1
    ensures var u, v := UtcOf(t, yday), UtcOf(t + SECONDS_PER_DAY, yday);
            v.wday == (u.wday + 1) % 7 && v.hour == u.hour && v.min == u.min && v.sec == u.sec &&
            YearMonthDay(v.year + 1900, v.mon + 1, v.mday) ==
            NextDate(YearMonthDay(u.year + 1900, u.mon + 1, u.mday))
  {
    hide FromJulianDay, DayNumber, NextDate, ValidDate, Representable, JulianDayNumber;
    var j := JulianDayOf(t);
    WeekDayAdvances(j);
    DayRoundTrip(j);
    NextDateNumber(FromJulianDay(j));
    DateRoundTrip(NextDate(FromJulianDay(j)));
    assert JulianDayOf(t + SECONDS_PER_DAY) == j + 1;
  }

  /** From day -1 on the weekday is the number of days since Thursday 1 January 1970, modulo 7. */
  lemma WeekDayFromEpoch(t: int, yday: bool)
    requires JulianDayOf(t) >= -1
    ensures UtcOf(t, yday).wday == (4 + t / SECONDS_PER_DAY) % 7
  {
    hide FromJulianDay, JulianDayNumber;
    assert EPOCH_DAY == 2440588 by { EpochDay(); }
  }

  lemma EpochDay()
    ensures EPOCH_DAY == 2440588
  {
  }

  /** Days since 1 January, counted month by month. */
  function DayOfYear(year: int, month: int, day: int): int
    decreases month
  {
    if month <= 1 then day - 1 else DaysInMonth(year, month - 1) + DayOfYear(year, month - 1, day)
  }

  lemma DayOfYearClosed(d: YearMonthDay)
    requires ValidDate(d)
    ensures DayOfYear(d.year, d.month, d.day) ==
            if d.month <= 2 then 31 * (d.month - 1) + d.day - 1
            else DayOfMarchYear(d) + (if LeapYear(d.year) then 60 else 59)
  {
    hide LeapYear;
    DayOfYearUnrolled(d.year, d.day);
  }

  lemma DayOfYearUnrolled(year: int, day: int)
    ensures DayOfYear(year, 2, day) == DayOfYear(year, 1, day) + 31
    ensures DayOfYear(year, 3, day) == DayOfYear(year, 2, day) + (if LeapYear(year) then 29 else 28)
    ensures DayOfYear(year, 4, day) == DayOfYear(year, 3, day) + 31
    ensures DayOfYear(year, 5, day) == DayOfYear(year, 4, day) + 30
    ensures DayOfYear(year, 6, day) == DayOfYear(year, 5, day) + 31
    ensures DayOfYear(year, 7, day) == DayOfYear(year, 6, day) + 30
    ensures DayOfYear(year, 8, day) == DayOfYear(year, 7, day) + 31
    ensures DayOfYear(year, 9, day) == DayOfYear(year, 8, day) + 31
    ensures DayOfYear(year, 10, day) == DayOfYear(year, 9, day) + 30
    ensures DayOfYear(year, 11, day) == DayOfYear(year, 10, day) + 31
    ensures DayOfYear(year, 12, day) == DayOfYear(year, 11, day) + 30
  {
    hide LeapYear;
  }

  /** The first day on which tm_yday is right: 1 January -4799. */
  const FIRST_YDAY := FIRST_DAY + 306

  lemma FirstYearEnds(d: YearMonthDay)
    requires ValidDate(d) && Representable(d)
    ensures d.year > -4800 <==> DayNumber(d) >= FIRST_YDAY
  {
    DayNumberParts(d);
    YearStartAtLeast(MarchYear(d));
    hide DayNumber, LeapYear;
    if MarchYear(d) == 0 {
      assert YearStart(0) == 0;
    }
  }

  /** tm_yday is the number of days since 1 January, or one less in year -4800. */
  lemma YdayValue(t: int)
    requires JulianDayOf(t) >= FIRST_DAY
    ensures var u := UtcOf(t, true);
            u.yday == DayOfYear(u.year + 1900, u.mon + 1, u.mday) - (if u.year + 1900 > -4800 then 0 else 1) &&
            0 <= u.yday <= 365
  {
    hide FromJulianDay, JulianDayNumber, YearStart, LeapYear, DayOfYear;
    var d := FromJulianDay(JulianDayOf(t));
    DayRoundTrip(JulianDayOf(t));
    DayOfYearClosed(d);
    DayNumberParts(d);
    var jan1 := YearMonthDay(d.year, 1, 1);
    if d.year > -4800 {
      DayNumberParts(jan1);
      YearLength(MarchYear(jan1));
    } else {
      YearMinus4800();
    }
  }

  /** tm_yday counts the days since 1 January exactly for times from 1 January -4799 on. */
  lemma YdayExact(t: int)
    requires JulianDayOf(t) >= FIRST_DAY
    ensures var u := UtcOf(t, true);
            u.yday == DayOfYear(u.year + 1900, u.mon + 1, u.mday) <==> JulianDayOf(t) >= FIRST_YDAY
  {
    hide FromJulianDay, JulianDayNumber, DayOfYear;
    YdayValue(t);
    DayRoundTrip(JulianDayOf(t));
    FirstYearEnds(FromJulianDay(JulianDayOf(t)));
  }

  lemma YearMinus4800()
    ensures JulianDayNumber(-4800, 1, 1) == FIRST_DAY - 59 && LeapYear(-4800) && YearStart(0) == 0
  {
  }

  // ----- Zones -----

  datatype Transition = Transition(gmttime: int, localtime: int, localtimeIdx: nat)

  datatype Localtime = Localtime(gmtOffset: int, isDst: bool, arrbIdx: nat)

  datatype Zone = Zone(transitions: seq<Transition>, localtimes: seq<Localtime>)

  /** What reading a zone file produces: 32-bit times and offsets, local times computed from them. */
  predicate WellFormed(z: Zone) {
    |z.localtimes| > 0 &&
    (forall l :: l in z.localtimes ==> Int32(l.gmtOffset)) &&
    forall tr :: tr in z.transitions ==>
      tr.localtimeIdx < |z.localtimes| && Int32(tr.gmttime) &&
      tr.localtime == tr.gmttime + z.localtimes[tr.localtimeIdx].gmtOffset
  }

  /** The field that the comparison object of a search looks at. */
  function Key(tr: Transition, compareGmt: bool): int {
    if compareGmt then tr.gmttime else tr.localtime
  }

  predicate Sorted(z: Zone) {
    forall i, j :: 0 <= i < j < |z.transitions| ==>
      z.transitions[i].gmttime < z.transitions[j].gmttime &&
      z.transitions[i].localtime < z.transitions[j].localtime
  }

  predicate SortedBy(s: seq<Transition>, compareGmt: bool) {
    forall i, j :: 0 <= i < j < |s| ==> Key(s[i], compareGmt) < Key(s[j], compareGmt)
  }

  /** The last transition at or before a key, -1 when there is none. */
  function LastAtOrBefore(s: seq<Transition>, key: int, compareGmt: bool): (i: int)
    ensures -1 <= i < |s|
    ensures i >= 0 ==> Key(s[i], compareGmt) <= key
    ensures forall k :: i < k < |s| ==> key < Key(s[k], compareGmt)
  {
    if |s| == 0 then -1
    else if Key(s[|s| - 1], compareGmt) <= key then |s| - 1
    else LastAtOrBefore(s[..|s| - 1], key, compareGmt)
  }

  /** The local time type in force after transition i; before the first transition it is type 0. */
  function TypeAfter(z: Zone, i: int): Localtime
    requires WellFormed(z) && -1 <= i < |z.transitions|
  {
    if i < 0 then z.localtimes[0] else z.localtimes[z.transitions[i].localtimeIdx]
  }

  function TypeAt(z: Zone, key: int, compareGmt: bool): Localtime
    requires WellFormed(z)
  {
    TypeAfter(z, LastAtOrBefore(z.transitions, key, compareGmt))
  }

  /** std::lower_bound: the first position whose key is not below the given one. */
  method LowerBound(s: seq<Transition>, key: int, compareGmt: bool) returns (lo: nat)
    requires SortedBy(s, compareGmt)
    ensures lo <= |s|
    ensures forall k :: 0 <= k < lo ==> Key(s[k], compareGmt) < key
    ensures forall k :: lo <= k < |s| ==> key <= Key(s[k], compareGmt)
  {
    lo := 0;
    var len := |s|;
    while len > 0
      invariant 0 <= len && lo + len <= |s|
      invariant forall k :: 0 <= k < lo ==> Key(s[k], compareGmt) < key
      invariant forall k :: lo + len <= k < |s| ==> key <= Key(s[k], compareGmt)
    {
      var half := len / 2;
      if Key(s[lo + half], compareGmt) < key {
        lo := lo + half + 1;
        len := len - half - 1;
      } else {
        len := half;
      }
    }
  }

  /** The search returns the type of the last transition at or before the key. */
  method FindLocaltime(z: Zone, key: int, compareGmt: bool) returns (local: Localtime)
    requires WellFormed(z) && SortedBy(z.transitions, compareGmt)
    ensures local == TypeAt(z, key, compareGmt)
  {
    var trans := z.transitions;
    ghost var last := LastAtOrBefore(trans, key, compareGmt);
    if |trans| == 0 || key < Key(trans[0], compareGmt) {
      local := z.localtimes[0];
    } else {
      var i := LowerBound(trans, key, compareGmt);
      if i != |trans| {
        if key != Key(trans[i], compareGmt) {
          assert i != 0;
          i := i - 1;
        }
        assert Key(trans[i], compareGmt) <= key && last >= i;
        assert i + 1 < |trans| ==> key < Key(trans[i + 1], compareGmt);
        local := z.localtimes[trans[i].localtimeIdx];
      } else {
        local := z.localtimes[trans[|trans| - 1].localtimeIdx];
      }
    }
  }

  // ----- Local times -----

  function LocalOf(z: Zone, t: int): Tm
    requires WellFormed(z)
  {
    var local := TypeAt(z, t, true);
    UtcOf(t + local.gmtOffset, true).(isdst := local.isDst, gmtoff := local.gmtOffset)
  }

  /** Whether a time broken down as daylight-saving is read back one hour earlier. */
  predicate Ambiguous(z: Zone, seconds: int, tm: Tm)
    requires WellFormed(z)
  {
    var tryTm := LocalOf(z, seconds - TypeAt(z, seconds, false).gmtOffset);
    tm.isdst && !tryTm.isdst && tryTm.hour == tm.hour && tryTm.min == tm.min
  }

  function FromLocal(z: Zone, tm: Tm): int
    requires WellFormed(z)
  {
    var seconds := FromUtcTm(tm);
    (if Ambiguous(z, seconds, tm) then seconds - 3600 else seconds) - TypeAt(z, seconds, false).gmtOffset
  }

  /** Times far enough inside the range of dates to be shifted by any 32-bit offset. */
  predicate InTimeRange(t: int) {
    -0x20_0000_0000 <= t < 0x1000_0000_0000
  }

  lemma InTimeRangeIsUtc(t: int)
    requires -0x30_0000_0000 <= t < 0x1100_0000_0000
    ensures UtcRange(t)
  {
    assert EPOCH_DAY == 2440588;
  }

  lemma TypeOffsetInt32(z: Zone, i: int)
    requires WellFormed(z) && -1 <= i < |z.transitions|
    ensures Int32(TypeAfter(z, i).gmtOffset)
  {
    if i >= 0 {
      assert z.transitions[i] in z.transitions;
    }
    assert TypeAfter(z, i) in z.localtimes;
  }

  method ToLocalTime(z: Zone, seconds: int) returns (localTime: Tm)
    requires WellFormed(z) && SortedBy(z.transitions, true) && InTimeRange(seconds)
    ensures localTime == LocalOf(z, seconds)
  {
    hide UtcOf, UtcRange;
    var local := FindLocaltime(z, seconds, true);
    TypeOffsetInt32(z, LastAtOrBefore(z.transitions, seconds, true));
    var localSeconds := seconds + local.gmtOffset;
    InTimeRangeIsUtc(localSeconds);
    localTime := ToUtcTime(localSeconds, true);
    localTime := localTime.(isdst := local.isDst);
    localTime := localTime.(gmtoff := local.gmtOffset);
  }

  method FromLocalTime(z: Zone, localTm: Tm) returns (t: int)
    requires WellFormed(z) && SortedBy(z.transitions, true) && SortedBy(z.transitions, false)
    requires -0x1F_0000_0000 <= FromUtcTm(localTm) < 0xF00_0000_0000
    ensures t == FromLocal(z, localTm)
  {
    hide FromUtcTm, UtcOf;
    var seconds := FromUtcTm(localTm);
    var local := FindLocaltime(z, seconds, false);
    TypeOffsetInt32(z, LastAtOrBefore(z.transitions, seconds, false));
    if localTm.isdst {
      var tryTm := ToLocalTime(z, seconds - local.gmtOffset);
      if !tryTm.isdst && tryTm.hour == localTm.hour && tryTm.min == localTm.min {
        seconds := seconds - 3600;
      }
    }
    t := seconds - local.gmtOffset;
  }

  // ----- The round trip of local times -----

  /** Every drop of the offset is one hour, from a daylight-saving type to a standard one. */
  predicate DropsAreDstEnds(z: Zone)
    requires WellFormed(z)
  {
    forall i :: 0 <= i < |z.transitions| && TypeAfter(z, i).gmtOffset < TypeAfter(z, i - 1).gmtOffset ==>
      DstEnd(TypeAfter(z, i - 1), TypeAfter(z, i))
  }

  /** After a drop of the offset the next transition is at least an hour away. */
  predicate SpacedAfterDrops(z: Zone)
    requires WellFormed(z)
  {
    forall i :: 0 < i < |z.transitions| && TypeAfter(z, i - 1).gmtOffset < TypeAfter(z, i - 2).gmtOffset ==>
      z.transitions[i].gmttime - z.transitions[i - 1].gmttime >= 3600
  }

  predicate DstEnd(before: Localtime, after: Localtime) {
    before.gmtOffset - after.gmtOffset == 3600 && before.isDst && !after.isDst
  }

  predicate RoundTrips(z: Zone, t: int)
    requires WellFormed(z)
  {
    FromLocal(z, LocalOf(z, t)) == t
  }

  /** What reading back computes, in terms of the two positions found in the table. */
  lemma ReadBack(z: Zone, t: int, i: int, j: int, k: int)
    requires WellFormed(z) && InTimeRange(t)
    requires i == LastAtOrBefore(z.transitions, t, true)
    requires j == LastAtOrBefore(z.transitions, t + TypeAfter(z, i).gmtOffset, false)
    requires k == LastAtOrBefore(z.transitions, t + TypeAfter(z, i).gmtOffset - TypeAfter(z, j).gmtOffset, true)
    requires TypeAfter(z, k) == TypeAfter(z, j)
    ensures var corrected := TypeAfter(z, i).isDst && !TypeAfter(z, j).isDst;
            FromLocal(z, LocalOf(z, t)) ==
            t + TypeAfter(z, i).gmtOffset - TypeAfter(z, j).gmtOffset - (if corrected then 3600 else 0)
  {
    hide UtcOf, FromUtcTm, UtcRange, JulianDayOf, LastAtOrBefore;
    TypeOffsetInt32(z, i);
    var s := t + TypeAfter(z, i).gmtOffset;
    assert FromUtcTm(LocalOf(z, t)) == s by {
      UtcRangeFirst(s);
      UtcRoundTrip(s, true);
      FromUtcTmIgnores(UtcOf(s, true), TypeAfter(z, i).isDst, TypeAfter(z, i).gmtOffset);
    }
  }

  lemma UtcRangeFirst(t: int)
    requires -0x30_0000_0000 <= t < 0x1100_0000_0000
    ensures JulianDayOf(t) >= FIRST_DAY
  {
    InTimeRangeIsUtc(t);
  }

  lemma FromUtcTmIgnores(u: Tm, isdst: bool, gmtoff: int)
    ensures FromUtcTm(u.(isdst := isdst, gmtoff := gmtoff)) == FromUtcTm(u)
  {
    hide JulianDayNumber;
  }

  /** The offset a local time carries is the one that leads back to UTC. */
  lemma LocalOffsetLeadsBack(z: Zone, t: int)
    requires WellFormed(z) && InTimeRange(t)
    ensures FromUtcTm(LocalOf(z, t)) - LocalOf(z, t).gmtoff == t
  {
    hide UtcOf, FromUtcTm, UtcRange, JulianDayOf, LastAtOrBefore;
    var local := TypeAt(z, t, true);
    TypeOffsetInt32(z, LastAtOrBefore(z.transitions, t, true));
    UtcRangeFirst(t + local.gmtOffset);
    UtcRoundTrip(t + local.gmtOffset, true);
    FromUtcTmIgnores(UtcOf(t + local.gmtOffset, true), local.isDst, local.gmtOffset);
  }

  /** The local time type in force at a time, said of the transitions alone. */
  predicate InForce(z: Zone, t: int, local: Localtime)
    requires WellFormed(z)
  {
    if forall tr :: tr in z.transitions ==> t < tr.gmttime then local == z.localtimes[0]
    else exists tr :: tr in z.transitions && tr.gmttime <= t && local == z.localtimes[tr.localtimeIdx] &&
           forall later :: later in z.transitions && tr.gmttime < later.gmttime ==> t < later.gmttime
  }

  /** A local time is the time shifted by the offset in force, and carries that offset and its flag. */
  lemma LocalTimeIsShifted(z: Zone, t: int, local: Localtime)
    requires WellFormed(z) && Sorted(z) && InTimeRange(t) && InForce(z, t, local)
    ensures var tm := LocalOf(z, t);
            FromUtcTm(tm) == t + local.gmtOffset && tm.gmtoff == local.gmtOffset && tm.isdst == local.isDst
  {
    InForceIsType(z, t, local);
    hide InForce, WellFormed, Sorted, LastAtOrBefore, UtcOf, FromUtcTm;
    LocalOffsetLeadsBack(z, t);
  }

  lemma InForceIsType(z: Zone, t: int, local: Localtime)
    requires WellFormed(z) && Sorted(z) && InForce(z, t, local)
    ensures local == TypeAt(z, t, true)
  {
    hide LastAtOrBefore;
    var i := LastAtOrBefore(z.transitions, t, true);
    if i >= 0 {
      assert z.transitions[i] in z.transitions;
      var tr :| tr in z.transitions && tr.gmttime <= t && local == z.localtimes[tr.localtimeIdx] &&
                forall later :: later in z.transitions && tr.gmttime < later.gmttime ==> t < later.gmttime;
      var k :| 0 <= k < |z.transitions| && z.transitions[k] == tr;
      assert k <= i;
      assert k == i;
    }
  }

  /**
    * A local time that a jump of the offset skips is read with the offset before the jump, so it is a time after
    * the jump, shown later by as much as the clock was put forward.
    */
  lemma SkippedTimeReadsForward(z: Zone, n: int, tm: Tm)
    requires WellFormed(z) && Sorted(z) && 0 <= n < |z.transitions| && !tm.isdst
    requires z.transitions[n].gmttime + TypeAfter(z, n - 1).gmtOffset <= FromUtcTm(tm) < z.transitions[n].localtime
    ensures FromLocal(z, tm) == FromUtcTm(tm) - TypeAfter(z, n - 1).gmtOffset >= z.transitions[n].gmttime
  {
    hide LastAtOrBefore, FromUtcTm, UtcOf;
    SkippedPosition(z, n, FromUtcTm(tm));
  }

  /** The minute of the day of a time. */
  function MinuteOf(t: int): int {
    t % SECONDS_PER_DAY / 60
  }

  lemma MinutesDiffer(s: int, jump: int)
    requires 60 <= jump <= SECONDS_PER_DAY - 60
    ensures MinuteOf(s) != MinuteOf(s + jump)
  {
    var a, b := s % SECONDS_PER_DAY, (s + jump) % SECONDS_PER_DAY;
    assert b == if a + jump < SECONDS_PER_DAY then a + jump else a + jump - SECONDS_PER_DAY;
  }

  /**
    * The same with the daylight-saving flag set, if the clock was put forward by a minute to a day and the next
    * transition is later: the time the flag asks to try shows another hour or minute, so nothing is taken off.
    */
  lemma SkippedDstTimeReadsForward(z: Zone, n: int, tm: Tm)
    requires WellFormed(z) && Sorted(z) && 0 <= n < |z.transitions|
    requires z.transitions[n].gmttime + TypeAfter(z, n - 1).gmtOffset <= FromUtcTm(tm) < z.transitions[n].localtime
    requires 60 <= TypeAfter(z, n).gmtOffset - TypeAfter(z, n - 1).gmtOffset <= SECONDS_PER_DAY - 60
    requires n + 1 < |z.transitions| ==>
      z.transitions[n].localtime - TypeAfter(z, n - 1).gmtOffset <= z.transitions[n + 1].gmttime
    requires var u := UtcOf(FromUtcTm(tm), true); tm.hour == u.hour && tm.min == u.min
    ensures FromLocal(z, tm) == FromUtcTm(tm) - TypeAfter(z, n - 1).gmtOffset
  {
    hide WellFormed, Sorted, LastAtOrBefore, FromUtcTm, UtcOf, MinuteOf, TypeAfter;
    var s, before, after := FromUtcTm(tm), TypeAfter(z, n - 1).gmtOffset, TypeAfter(z, n).gmtOffset;
    SkippedPosition(z, n, s);
    JumpPosition(z, n, s - before);
    assert s - before + after == s + (after - before);
    MinutesDiffer(s, after - before);
    SameClockSameMinute(s, s + (after - before));
  }

  lemma JumpPosition(z: Zone, n: int, r: int)
    requires WellFormed(z) && Sorted(z) && 0 <= n < |z.transitions| && z.transitions[n].gmttime <= r
    requires n + 1 < |z.transitions| ==> r < z.transitions[n + 1].gmttime
    ensures LastAtOrBefore(z.transitions, r, true) == n
  {
    hide WellFormed, LastAtOrBefore;
    AfterLast(z.transitions, r, n);
  }

  lemma SkippedPosition(z: Zone, n: int, s: int)
    requires WellFormed(z) && Sorted(z) && 0 <= n < |z.transitions|
    requires z.transitions[n].gmttime + TypeAfter(z, n - 1).gmtOffset <= s < z.transitions[n].localtime
    ensures LastAtOrBefore(z.transitions, s, false) == n - 1
  {
    hide LastAtOrBefore;
    assert forall k :: n < k < |z.transitions| ==> s < z.transitions[k].localtime;
    if n > 0 {
      assert z.transitions[n - 1] in z.transitions;
      assert z.transitions[n - 1].localtime <= s;
    }
  }

  lemma SameClockSameMinute(s: int, t: int)
    ensures UtcOf(s, true).hour == UtcOf(t, true).hour && UtcOf(s, true).min == UtcOf(t, true).min ==>
      MinuteOf(s) == MinuteOf(t)
  {
    hide FromJulianDay, JulianDayNumber, WeekDay;
    var a, b := s % SECONDS_PER_DAY, t % SECONDS_PER_DAY;
    assert a / 60 == a / 3600 * 60 + a / 60 % 60;
    assert b / 60 == b / 3600 * 60 + b / 60 % 60;
  }

  /** Reading back a local time gives the original time, the repeated hour included. */
  lemma LocalRoundTrip(z: Zone, t: int)
    requires WellFormed(z) && Sorted(z) && SpacedAfterDrops(z) && DropsAreDstEnds(z)
    requires InTimeRange(t)
    ensures RoundTrips(z, t)
  {
    hide FromLocal, LocalOf, LastAtOrBefore, WellFormed, Sorted, SpacedAfterDrops, DropsAreDstEnds, TypeAfter;
    var i := LastAtOrBefore(z.transitions, t, true);
    var s := t + TypeAfter(z, i).gmtOffset;
    var j := LastAtOrBefore(z.transitions, s, false);
    LocalPosition(z, t, i, j);
    if j == i + 1 {
      UtcPosition(z, t, i);
    }
    ReadBack(z, t, i, j, j);
  }

  /** An hour after a time just before the end of daylight saving, that end is the last transition. */
  lemma UtcPosition(z: Zone, t: int, i: int)
    requires WellFormed(z) && Sorted(z) && SpacedAfterDrops(z)
    requires i == LastAtOrBefore(z.transitions, t, true) && i + 1 < |z.transitions|
    requires DstEnd(TypeAfter(z, i), TypeAfter(z, i + 1))
    requires z.transitions[i + 1].localtime <= t + TypeAfter(z, i).gmtOffset
    ensures LastAtOrBefore(z.transitions, t + 3600, true) == i + 1
  {
    hide LastAtOrBefore;
    var j := i + 1;
    assert z.transitions[j] in z.transitions;
    assert z.transitions[j].gmttime <= t + 3600;
    assert j + 1 < |z.transitions| ==> z.transitions[j + 1].gmttime - z.transitions[j].gmttime >= 3600 by {
      assert TypeAfter(z, j + 1 - 1).gmtOffset < TypeAfter(z, j + 1 - 2).gmtOffset;
    }
    hide WellFormed, SpacedAfterDrops, TypeAfter, DstEnd;
    AfterLast(z.transitions, t + 3600, j);
  }

  /** A transition at or before the key whose successor is after it is the last one. */
  lemma AfterLast(s: seq<Transition>, key: int, j: nat)
    requires j < |s| && forall a, b :: 0 <= a < b < |s| ==> s[a].gmttime < s[b].gmttime
    requires s[j].gmttime <= key && (j + 1 < |s| ==> key < s[j + 1].gmttime)
    ensures LastAtOrBefore(s, key, true) == j
  {
    hide LastAtOrBefore;
    assert forall k :: j < k < |s| ==> key < s[k].gmttime;
  }

  /** The local clock finds the same transition, or the next one when that ends daylight saving. */
  lemma LocalPosition(z: Zone, t: int, i: int, j: int)
    requires WellFormed(z) && Sorted(z) && SpacedAfterDrops(z) && DropsAreDstEnds(z)
    requires i == LastAtOrBefore(z.transitions, t, true)
    requires j == LastAtOrBefore(z.transitions, t + TypeAfter(z, i).gmtOffset, false)
    ensures -1 <= i < |z.transitions| && -1 <= j < |z.transitions|
    ensures j == i || (j == i + 1 && DstEnd(TypeAfter(z, i), TypeAfter(z, j)))
    ensures j >= 0 ==> z.transitions[j].localtime <= t + TypeAfter(z, i).gmtOffset
  {
    hide LastAtOrBefore;
    var s := t + TypeAfter(z, i).gmtOffset;
    forall k | 0 <= k < |z.transitions|
      ensures z.transitions[k].localtime == z.transitions[k].gmttime + TypeAfter(z, k).gmtOffset
    {
      assert z.transitions[k] in z.transitions;
    }
    assert j >= i;
    if j > i {
      assert t < z.transitions[i + 1].gmttime;
      assert z.transitions[i + 1].localtime <= s;
      assert DstEnd(TypeAfter(z, i), TypeAfter(z, i + 1));
      // after the end of daylight saving the offset does not drop again, so the local gap is an hour too
      assert i + 2 < |z.transitions| ==> TypeAfter(z, i + 2).gmtOffset >= TypeAfter(z, i + 1).gmtOffset;
      assert i + 2 < |z.transitions| ==> s < z.transitions[i + 2].localtime;
    }
  }

  /** At a drop that is not the end of daylight saving, the local time of the transition is misread. */
  lemma BadDropBreaksRoundTrip(z: Zone, n: int)
    requires WellFormed(z) && Sorted(z)
    requires 0 <= n < |z.transitions|
    requires TypeAfter(z, n).gmtOffset < TypeAfter(z, n - 1).gmtOffset
    requires !DstEnd(TypeAfter(z, n - 1), TypeAfter(z, n))
    ensures var t := z.transitions[n].localtime - TypeAfter(z, n - 1).gmtOffset;
            InTimeRange(t) && !RoundTrips(z, t)
  {
    hide FromLocal, LocalOf, LastAtOrBefore;
    var t := z.transitions[n].localtime - TypeAfter(z, n - 1).gmtOffset;
    assert z.transitions[n] in z.transitions;
    TypeOffsetInt32(z, n);
    TypeOffsetInt32(z, n - 1);
    if n > 0 {
      assert z.transitions[n - 1] in z.transitions;
    }
    assert LastAtOrBefore(z.transitions, t, true) == n - 1;
    assert LastAtOrBefore(z.transitions, z.transitions[n].localtime, false) == n;
    assert LastAtOrBefore(z.transitions, z.transitions[n].gmttime, true) == n;
    ReadBack(z, t, n - 1, n, n);
  }

  /** For a zone whose drops are followed by a quiet hour: every local time reads back iff every drop ends daylight saving. */
  lemma LocalRoundTripExact(z: Zone)
    requires WellFormed(z) && Sorted(z) && SpacedAfterDrops(z)
    ensures (forall t :: InTimeRange(t) ==> RoundTrips(z, t)) <==> DropsAreDstEnds(z)
  {
    hide RoundTrips, InTimeRange;
    if DropsAreDstEnds(z) {
      forall t | InTimeRange(t)
        ensures RoundTrips(z, t)
      {
        LocalRoundTrip(z, t);
      }
    } else {
      var n :| 0 <= n < |z.transitions| && TypeAfter(z, n).gmtOffset < TypeAfter(z, n - 1).gmtOffset &&
        !DstEnd(TypeAfter(z, n - 1), TypeAfter(z, n));
      BadDropBreaksRoundTrip(z, n);
    }
  }
}
