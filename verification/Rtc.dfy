/** Calendar arithmetic and the register round trips of the real-time clock (lib/drivers/rtc.c). */
module Rtc {
  import opened Options

  datatype Date = Date(year: int, month: int, day: int)

  // ----- C's division, which truncates toward zero -----

  function CDiv(a: int, b: int): int
    requires b > 0
  {
    if a >= 0 then a / b else -((-a) / b)
  }

  function CMod(a: int, b: int): int
    requires b > 0
  {
    a - b * CDiv(a, b)
  }

  // ----- the driver's closed forms -----

  predicate IsLeap(year: int) { (year % 4 == 0 && year % 100 != 0) || year % 400 == 0 }

  const COMMON_DAYS := [0, 0, 31, 59, 90, 120, 151, 181, 212, 243, 273, 304, 334]
  const LEAP_DAYS := [0, 0, 31, 60, 91, 121, 152, 182, 213, 244, 274, 305, 335]

  /** rtc_get_yday; the table has an entry for month 0, which an alarm read-back can ask for. */
  function YearDay(year: int, month: int, day: int): int
    requires 0 <= month <= 12
  {
    (if IsLeap(year) then LEAP_DAYS else COMMON_DAYS)[month] + day
  }

  /** rtc_get_wday, with the side effects of its one expression spelled out. */
  function WeekDay(year: int, month: int, day: int): int {
    var d := day + if month < 3 then year else year - 2;
    var y := if month < 3 then year - 1 else year;
    CMod(CDiv(23 * month, 9) + d + 4 + CDiv(y, 4) - CDiv(y, 100) + CDiv(y, 400), 7)
  }

  // ----- the reference: counting days from 1 January of year 0 -----

  function MonthLength(year: int, month: int): nat {
    if month == 2 then (if IsLeap(year) then 29 else 28)
    else if month in {4, 6, 9, 11} then 30
    else 31
  }

  predicate Valid(d: Date) {
    0 <= d.year && 1 <= d.month <= 12 && 1 <= d.day <= MonthLength(d.year, d.month)
  }

  function NextDay(d: Date): (n: Date)
    requires Valid(d)
    ensures Valid(n)
  {
    if d.day < MonthLength(d.year, d.month) then d.(day := d.day + 1)
    else if d.month < 12 then Date(d.year, d.month + 1, 1)
    else Date(d.year + 1, 1, 1)
  }

  function PreviousDay(d: Date): (p: Date)
    requires Valid(d) && d != Date(0, 1, 1)
    ensures Valid(p)
  {
    if d.day > 1 then d.(day := d.day - 1)
    else if d.month > 1 then Date(d.year, d.month - 1, MonthLength(d.year, d.month - 1))
    else Date(d.year - 1, 12, 31)
  }

  lemma PreviousIsInverse(d: Date)
    requires Valid(d) && d != Date(0, 1, 1)
    ensures NextDay(PreviousDay(d)) == d
  {
  }

  /** The number of days from 1 January of year 0 to d, one day at a time. */
  function DayCount(d: Date): (n: nat)
    requires Valid(d)
    decreases d.year, d.month, d.day
  {
    if d == Date(0, 1, 1) then 0 else DayCount(PreviousDay(d)) + 1
  }

  // ----- closed form of the count -----

  function LeapsBefore(year: nat): int {
    if year == 0 then 0 else 1 + (year - 1) / 4 - (year - 1) / 100 + (year - 1) / 400
  }

  lemma LeapsStep(year: nat)
    ensures LeapsBefore(year + 1) == LeapsBefore(year) + if IsLeap(year) then 1 else 0
  {
    if year > 0 {
      Carries(year);
      LeapMeaning(year);
    }
  }

  lemma Carries(year: nat)
    requires year > 0
    ensures year / 4 == (year - 1) / 4 + if year % 4 == 0 then 1 else 0
    ensures year / 100 == (year - 1) / 100 + if year % 100 == 0 then 1 else 0
    ensures year / 400 == (year - 1) / 400 + if year % 400 == 0 then 1 else 0
  {
  }

  lemma LeapMeaning(year: nat)
    ensures year % 400 == 0 ==> year % 100 == 0
    ensures year % 100 == 0 ==> year % 4 == 0
  {
    if year % 400 == 0 { assert year == 100 * (4 * (year / 400)); }
    if year % 100 == 0 { assert year == 4 * (25 * (year / 100)); }
  }

  /** Days from 1 January of year 0 to the day, through the driver's table of month starts. */
  function Closed(d: Date): int
    requires Valid(d)
  {
    365 * d.year + LeapsBefore(d.year) + YearDay(d.year, d.month, d.day) - 1
  }

  lemma ClosedStep(d: Date)
    requires Valid(d)
    ensures Closed(NextDay(d)) == Closed(d) + 1
  {
    hide LeapsBefore;
    LeapsStep(d.year);
  }

  lemma {:induction false} CountIsClosed(d: Date)
    requires Valid(d)
    ensures DayCount(d) == Closed(d)
    decreases d.year, d.month, d.day
  {
    if d != Date(0, 1, 1) {
      CountIsClosed(PreviousDay(d));
      PreviousIsInverse(d);
      ClosedStep(PreviousDay(d));
    }
  }

  // ----- the theorems -----

  /** What the weekday formula adds up, before reduction modulo 7. */
  function Sum(d: Date): int {
    var day := d.day + if d.month < 3 then d.year else d.year - 2;
    var y := if d.month < 3 then d.year - 1 else d.year;
    CDiv(23 * d.month, 9) + day + 4 + CDiv(y, 4) - CDiv(y, 100) + CDiv(y, 400)
  }

  /** The sum is the day count up to whole weeks: 52 a year and 4 a month. */
  lemma SumIsClosed(d: Date)
    requires Valid(d) && (d.year >= 1 || d.month >= 3)
    ensures Closed(d) + 6 == Sum(d) + 7 * (52 * d.year + 4 * (d.month - 1))
  {
    LeapSum(if d.month < 3 then d.year - 1 else d.year);
    LeapsStep(d.year);
    MonthSum(d);
    hide LeapsBefore, CDiv, IsLeap, YearDay;
  }

  /** The 23 * month / 9 of the formula follows the month table. */
  lemma MonthSum(d: Date)
    requires Valid(d)
    ensures YearDay(d.year, d.month, d.day) == CDiv(23 * d.month, 9) + 28 * (d.month - 1) + d.day
              + if d.month < 3 then -2 else if IsLeap(d.year) then -3 else -4
  {
  }

  lemma LeapSum(y: nat)
    ensures CDiv(y, 4) - CDiv(y, 100) + CDiv(y, 400) == LeapsBefore(y + 1) - 1
  {
  }

  lemma WholeWeeks(a: int, b: int, k: int)
    requires a == b + 7 * k && b >= 0 && a >= 0
    ensures a % 7 == CMod(b, 7)
  {
    assert CMod(b, 7) == b % 7;
    hide CMod;
  }

  /** The weekday formula is the day count modulo 7 exactly from 1 March of year 0 on: before that, the
      truncating division of year -1 is off by one. */
  lemma WeekDayCountsDays(d: Date)
    requires Valid(d)
    ensures WeekDay(d.year, d.month, d.day) == (DayCount(d) + 6) % 7 <==> d.year >= 1 || d.month >= 3
  {
    hide DayCount, Closed, WeekDay, MonthLength;
    CountIsClosed(d);
    if d.year >= 1 || d.month >= 3 {
      FromYearOne(d);
    } else {
      YearZero(d);
    }
  }

  lemma WeekDayOfSum(d: Date)
    ensures WeekDay(d.year, d.month, d.day) == CMod(Sum(d), 7)
  {
    hide CDiv, CMod;
  }

  lemma FromYearOne(d: Date)
    requires Valid(d) && (d.year >= 1 || d.month >= 3)
    ensures WeekDay(d.year, d.month, d.day) == (Closed(d) + 6) % 7
  {
    hide *;
    WeekDayOfSum(d);
    SumIsPositive(d);
    SumIsClosed(d);
    WholeWeeks(Closed(d) + 6, Sum(d), 52 * d.year + 4 * (d.month - 1));
  }

  lemma SumIsPositive(d: Date)
    requires Valid(d) && (d.year >= 1 || d.month >= 3)
    ensures Sum(d) >= 0 && Closed(d) >= 0
  {
  }

  lemma YearZero(d: Date)
    requires Valid(d) && d.year == 0 && d.month < 3
    ensures WeekDay(d.year, d.month, d.day) != (Closed(d) + 6) % 7
  {
    hide *;
    WeekDayOfSum(d);
    YearZeroSum(d);
    WholeWeeks(Closed(d) + 7, Sum(d), 4 * (d.month - 1));
  }

  lemma YearZeroSum(d: Date)
    requires Valid(d) && d.year == 0 && d.month < 3
    ensures Closed(d) + 7 == Sum(d) + 7 * (4 * (d.month - 1)) && Closed(d) >= 0 && Sum(d) >= 0
  {
    hide WeekDay;
  }

  lemma CountStep(d: Date)
    requires Valid(d)
    ensures DayCount(NextDay(d)) == DayCount(d) + 1
  {
    CountIsClosed(d);
    CountIsClosed(NextDay(d));
    hide Closed, DayCount;
    ClosedStep(d);
  }

  lemma NextModSeven(n: nat)
    ensures (n + 1 + 6) % 7 == ((n + 6) % 7 + 1) % 7
  {
  }

  /** Tomorrow is the next weekday, over every month, leap and century boundary. */
  lemma WeekDayOfNextDay(d: Date)
    requires Valid(d) && d.year >= 1
    ensures var n := NextDay(d); WeekDay(n.year, n.month, n.day) == (WeekDay(d.year, d.month, d.day) + 1) % 7
  {
    hide WeekDay, DayCount;
    WeekDayCountsDays(d);
    WeekDayCountsDays(NextDay(d));
    CountStep(d);
    assert NextDay(d).year >= 1;
    hide NextDay;
    NextModSeven(DayCount(d));
  }

  /** 1 January 1970 was a Thursday, so the weekdays are the right ones and not just a cycle. */
  lemma Epoch()
    ensures WeekDay(1970, 1, 1) == 4
  {
  }

  /** The two closed forms agree: the weekday is that of 1 January moved on by the day of the year. */
  lemma WeekDayFromYearDay(d: Date)
    requires Valid(d) && d.year >= 1
    ensures WeekDay(d.year, d.month, d.day)
         == (WeekDay(d.year, 1, 1) + YearDay(d.year, d.month, d.day) - 1) % 7
  {
    hide WeekDay, DayCount, LeapsBefore;
    var first := Date(d.year, 1, 1);
    WeekDayCountsDays(d);
    WeekDayCountsDays(first);
    CountIsClosed(d);
    CountIsClosed(first);
    assert Closed(d) == Closed(first) + YearDay(d.year, d.month, d.day) - 1;
  }

  /** The day of the year counts the days from 1 January of the same year. */
  lemma YearDayCountsDays(d: Date)
    requires Valid(d)
    ensures YearDay(d.year, d.month, d.day) == DayCount(d) - DayCount(Date(d.year, 1, 1)) + 1
  {
    hide DayCount, LeapsBefore;
    CountIsClosed(d);
    CountIsClosed(Date(d.year, 1, 1));
  }

  // ----- broken-down time and the registers -----

  datatype Tm = Tm(sec: int, min: int, hour: int, mday: int, mon: int, year: int, wday: int, yday: int, isdst: int)

  /** The date and time registers, of the timer or of the alarm, with the widths of their fields. */
  datatype Regs = Regs(second: int, minute: int, hour: int, day: int, month: int, year: int, week: int)

  predicate Fits(r: Regs, century: int) {
    && 0 <= r.second < 64 && 0 <= r.minute < 64 && 0 <= r.hour < 32 && 0 <= r.day < 32 && 0 <= r.month < 16
    && 0 <= r.year < 4096 && 0 <= r.week < 8 && 0 <= century < 32
  }

  /** The broken-down times the driver takes: every field in its range, years 0 to 3199. */
  predicate Acceptable(t: Tm) {
    && 0 <= t.sec <= 59 && 0 <= t.min <= 59 && 0 <= t.hour <= 23 && 1 <= t.mday <= 31 && 0 <= t.mon <= 11
    && 0 <= t.year + 1900 <= 3199 && 0 <= t.wday <= 6
  }

  function Encode(t: Tm): Regs {
    var y := t.year + 1900;
    Regs(t.sec, t.min, t.hour, t.mday, t.mon + 1, CMod(y, 100), t.wday)
  }

  function CenturyOf(t: Tm): int { CDiv(t.year + 1900, 100) }

  lemma AcceptedFits(t: Tm)
    requires Acceptable(t)
    ensures Fits(Encode(t), CenturyOf(t)) && 0 <= Encode(t).year < 100
    ensures forall century :: 0 <= century < 32 ==> Fits(Encode(t), century)
    ensures t.year + 1900 == 100 * CenturyOf(t) + Encode(t).year
  {
  }

  function Dated(r: Regs, mday: int, mon: int, year: int): Tm
    requires -1 <= mon <= 11
  {
    Tm(CMod(r.second, 60), CMod(r.minute, 60), CMod(r.hour, 24), mday, mon, year, r.week,
       YearDay(year + 1900, mon + 1, mday), -1)
  }

  /** What rtc_timer_get_tm makes of the timer registers. */
  function ReadTimer(r: Regs, century: int): Tm
    requires Fits(r, century)
  {
    Dated(r, CMod(r.day - 1, 31) + 1, CMod(r.month - 1, 12), CMod(r.year, 100) + century * 100 - 1900)
  }

  /** What rtc_timer_get_alarm_tm makes of the alarm registers: day and month are reduced differently, and the
      century is the timer's. */
  function ReadAlarm(r: Regs, century: int): Tm
    requires Fits(r, century)
  {
    Dated(r, CMod(r.day, 31), CMod(r.month, 12) - 1, CMod(r.year, 100) + century * 100 - 1900)
  }

  /** The same time with the two fields the driver computes itself. */
  function Completed(t: Tm): Tm
    requires Acceptable(t)
  {
    t.(yday := YearDay(t.year + 1900, t.mon + 1, t.mday), isdst := -1)
  }

  /** A time that has been set is read back, with its day of the year. */
  lemma TimerReadsBack(t: Tm)
    requires Acceptable(t)
    ensures Fits(Encode(t), CenturyOf(t)) && ReadTimer(Encode(t), CenturyOf(t)) == Completed(t)
  {
    hide YearDay, CMod, CDiv, Fits, CenturyOf;
    AcceptedFits(t);
    TimeFields(t);
  }

  lemma TimeFields(t: Tm)
    requires Acceptable(t)
    ensures CMod(t.sec, 60) == t.sec && CMod(t.min, 60) == t.min && CMod(t.hour, 24) == t.hour
    ensures CMod(Encode(t).year, 100) == Encode(t).year
    ensures CMod(t.mday - 1, 31) == t.mday - 1 && CMod(t.mon, 12) == t.mon
    ensures CMod(t.mday, 31) == if t.mday == 31 then 0 else t.mday
    ensures CMod(t.mon + 1, 12) == if t.mon == 11 then 0 else t.mon + 1
  {
    hide Encode;
    AcceptedFits(t);
  }

  /** An alarm is read back exactly when it is neither on a 31st nor in December, and lies in the century the
      timer is in. */
  lemma AlarmReadsBack(t: Tm, century: int)
    requires Acceptable(t) && 0 <= century < 32
    ensures Fits(Encode(t), century)
    ensures ReadAlarm(Encode(t), century) == Completed(t) <==>
              t.mday != 31 && t.mon != 11 && century == (t.year + 1900) / 100
  {
    hide YearDay, CMod, CDiv, Fits, CenturyOf;
    AcceptedFits(t);
    TimeFields(t);
    CenturyIsUnique(t);
  }

  lemma CenturyIsUnique(t: Tm)
    requires Acceptable(t)
    ensures CenturyOf(t) == (t.year + 1900) / 100
  {
  }

  datatype Mode = Pause | Running | Setting

  class Clock {
    var readEnable: bool
    var writeEnable: bool
    var timer: Regs
    var alarm: Regs
    var century: int

    constructor ()
      ensures Valid()
    {
      readEnable, writeEnable, century := false, false, 0;
      timer := Regs(0, 0, 0, 0, 0, 0, 0);
      alarm := Regs(0, 0, 0, 0, 0, 0, 0);
    }

    predicate Valid()
      reads this
    {
      Fits(timer, century) && Fits(alarm, century)
    }

    function CurrentMode(): Mode
      reads this
    {
      if readEnable && !writeEnable then Running
      else if !readEnable && writeEnable then Setting
      else Pause
    }

    method SetMode(mode: Mode)
      modifies this`readEnable, this`writeEnable
      ensures CurrentMode() == mode && !(readEnable && writeEnable)
    {
      readEnable, writeEnable := mode.Running?, mode.Setting?;
    }

    /** Both enable bits at once is an error state, which asking for the mode turns into a pause. */
    method GetMode() returns (mode: Mode)
      modifies this`readEnable, this`writeEnable
      ensures mode == old(CurrentMode()) == CurrentMode() && !(readEnable && writeEnable)
    {
      mode := Pause;
      if !readEnable && !writeEnable {
        mode := Pause;
      } else if readEnable && !writeEnable {
        mode := Running;
      } else if !readEnable && writeEnable {
        mode := Setting;
      } else {
        SetMode(mode);
      }
    }

    /** The checks that both setters make field by field; `regs` counts only if `ok`. */
    method Check(tm: Tm) returns (ok: bool, regs: Regs, cent: int)
      ensures ok <==> Acceptable(tm)
      ensures ok ==> regs == Encode(tm) && cent == CenturyOf(tm)
    {
      ok, cent, regs := false, 0, Regs(0, 0, 0, 0, 0, 0, 0);
      if !(0 <= tm.sec <= 59) { return; }
      regs := regs.(second := tm.sec);
      if !(0 <= tm.min <= 59) { return; }
      regs := regs.(minute := tm.min);
      if !(0 <= tm.hour <= 23) { return; }
      regs := regs.(hour := tm.hour);
      if !(1 <= tm.mday <= 31) { return; }
      regs := regs.(day := tm.mday);
      if !(0 <= tm.mon <= 11) { return; }
      regs := regs.(month := tm.mon + 1);
      var humanYear := tm.year + 1900;
      var rtcYear, rtcCentury := CMod(humanYear, 100), CDiv(humanYear, 100);
      YearRange(humanYear);
      if !(0 <= rtcYear <= 99 && 0 <= rtcCentury <= 31) { return; }
      regs, cent := regs.(year := rtcYear), rtcCentury;
      if !(0 <= tm.wday <= 6) { return; }
      regs := regs.(week := tm.wday);
      ok := true;
    }

    /** rtc_timer_set_tm: nothing changes unless every field is acceptable; then the clock runs from it. */
    method SetTm(tm: Option<Tm>) returns (r: int)
      requires Valid()
      modifies this
      ensures Valid() && r == (if tm.Some? && !Acceptable(tm.value) then -1 else 0) && alarm == old(alarm)
      ensures tm.Some? && Acceptable(tm.value) ==>
                timer == Encode(tm.value) && century == CenturyOf(tm.value) && CurrentMode() == Running
      ensures !(tm.Some? && Acceptable(tm.value)) ==>
                timer == old(timer) && century == old(century) && CurrentMode() == old(CurrentMode())
    {
      if tm.Some? {
        var ok, regs, cent := Check(tm.value);
        if !ok { return -1; }
        AcceptedFits(tm.value);
        SetMode(Setting);
        timer, century := regs, cent;
        SetMode(Running);
      }
      return 0;
    }

    /** rtc_timer_set_alarm_tm: the century is checked and then dropped. */
    method SetAlarmTm(tm: Option<Tm>) returns (r: int)
      requires Valid()
      modifies this`alarm
      ensures Valid() && r == (if tm.Some? && !Acceptable(tm.value) then -1 else 0)
      ensures alarm == if tm.Some? && Acceptable(tm.value) then Encode(tm.value) else old(alarm)
    {
      if tm.Some? {
        var ok, regs, cent := Check(tm.value);
        if !ok { return -1; }
        AcceptedFits(tm.value);
        alarm := regs;
      }
      return 0;
    }

    method GetTm() returns (tm: Option<Tm>)
      requires Valid()
      modifies this`readEnable, this`writeEnable
      ensures Valid() && CurrentMode() == old(CurrentMode())
      ensures tm == if CurrentMode() == Running then Some(ReadTimer(timer, century)) else None
    {
      var mode := GetMode();
      if mode != Running { return None; }
      return Some(ReadTimer(timer, century));
    }

    method GetAlarmTm() returns (tm: Option<Tm>)
      requires Valid()
      modifies this`readEnable, this`writeEnable
      ensures Valid() && CurrentMode() == old(CurrentMode())
      ensures tm == if CurrentMode() == Running then Some(ReadAlarm(alarm, century)) else None
    {
      var mode := GetMode();
      if mode != Running { return None; }
      return Some(ReadAlarm(alarm, century));
    }

    /** rtc_timer_set.  The month table is read before the month is checked; `outside` stands for whatever a
        read outside it yields, and has no influence, because such a month is then refused. */
    method Set(year: int, month: int, day: int, hour: int, minute: int, second: int, outside: int) returns (r: int)
      requires Valid()
      modifies this
      ensures Valid() && alarm == old(alarm)
      ensures !(1 <= month <= 12) ==> r == -1
      ensures var tm := Filled(year, month, day, hour, minute, second, outside);
              if Acceptable(tm)
              then r == 0 && timer == Encode(tm) && century == CenturyOf(tm) && CurrentMode() == Running
              else r == -1 && timer == old(timer) && century == old(century)
    {
      r := SetTm(Some(Filled(year, month, day, hour, minute, second, outside)));
    }
  }

  lemma YearRange(y: int)
    ensures 0 <= CMod(y, 100) <= 99 && 0 <= CDiv(y, 100) <= 31 <==> 0 <= y <= 3199
  {
  }

  function Filled(year: int, month: int, day: int, hour: int, minute: int, second: int, outside: int): Tm {
    var yday := if 0 <= month <= 12 then YearDay(year, month, day) else outside;
    Tm(second, minute, hour, day, month - 1, year - 1900, WeekDay(year, month, day), yday, -1)
  }

  /** A real date, at whatever time of day, is taken exactly in the years 0 to 3199. */
  lemma TakenYears(d: Date, hour: int, minute: int, second: int, outside: int)
    requires Valid(d) && 0 <= hour <= 23 && 0 <= minute <= 59 && 0 <= second <= 59
    ensures Acceptable(Filled(d.year, d.month, d.day, hour, minute, second, outside)) <==> 0 <= d.year <= 3199
  {
    hide YearDay;
  }

  /** A time of day that is none, a day 0, or a day 32 is refused. */
  lemma RefusedTimes(year: int, month: int, day: int, hour: int, minute: int, second: int, outside: int)
    requires !(1 <= day <= 31) || !(1 <= month <= 12) || !(0 <= hour < 24) || !(0 <= minute < 60) || !(0 <= second < 60)
    ensures !Acceptable(Filled(year, month, day, hour, minute, second, outside))
  {
    hide YearDay, WeekDay;
  }

  /** Every real date from year 1 to 3199 is accepted by rtc_timer_set, is put into the registers with its true
      weekday, and comes back from rtc_timer_get_tm as it went in, with its day of the year counted from 1. */
  method SetThenGet(clock: Clock, d: Date, hour: int, minute: int, second: int, outside: int) returns (tm: Option<Tm>)
    requires clock.Valid() && Valid(d) && 1 <= d.year <= 3199
    requires 0 <= hour <= 23 && 0 <= minute <= 59 && 0 <= second <= 59
    modifies clock
    ensures tm.Some? && tm.value.hour == hour && tm.value.min == minute && tm.value.sec == second
    ensures tm.value.mday == d.day && tm.value.mon == d.month - 1 && tm.value.year == d.year - 1900
    ensures tm.value.wday == (DayCount(d) + 6) % 7
    ensures tm.value.yday == DayCount(d) - DayCount(Date(d.year, 1, 1)) + 1 && tm.value.isdst == -1
    ensures var r := clock.timer;
            && r.hour == hour && r.minute == minute && r.second == second && r.day == d.day && r.month == d.month
            && clock.century == d.year / 100 && r.year == d.year % 100 && r.week == (DayCount(d) + 6) % 7
  {
    hide YearDay, WeekDay, DayCount, Encode, CenturyOf, Clock.Valid, ReadTimer, Filled;
    ghost var t := Filled(d.year, d.month, d.day, hour, minute, second, outside);
    FilledIsAcceptable(d, hour, minute, second, outside);
    FilledFields(d, hour, minute, second, outside);
    var r := clock.Set(d.year, d.month, d.day, hour, minute, second, outside);
    TimerReadsBack(t);
    tm := clock.GetTm();
  }

  /** What the wrapper makes of a date, and the registers of it. */
  lemma FilledFields(d: Date, hour: int, minute: int, second: int, outside: int)
    requires Valid(d) && 1 <= d.year <= 3199
    ensures var t := Filled(d.year, d.month, d.day, hour, minute, second, outside);
            && t.hour == hour && t.min == minute && t.sec == second
            && t.mday == d.day && t.mon == d.month - 1 && t.year == d.year - 1900
            && t.wday == (DayCount(d) + 6) % 7 && t.isdst == -1
            && t.yday == DayCount(d) - DayCount(Date(d.year, 1, 1)) + 1
            && Encode(t) == Regs(second, minute, hour, d.day, d.month, d.year % 100, (DayCount(d) + 6) % 7)
            && CenturyOf(t) == d.year / 100
  {
    hide YearDay, WeekDay, DayCount;
    WeekDayCountsDays(d);
    YearDayCountsDays(d);
  }

  /** The wrapper fills in what the driver would compute itself, and the true weekday. */
  lemma FilledIsAcceptable(d: Date, hour: int, minute: int, second: int, outside: int)
    requires Valid(d) && 1 <= d.year <= 3199
    requires 0 <= hour <= 23 && 0 <= minute <= 59 && 0 <= second <= 59
    ensures var t := Filled(d.year, d.month, d.day, hour, minute, second, outside);
            && Acceptable(t) && Completed(t) == t && Encode(t).week == (DayCount(d) + 6) % 7
  {
    hide YearDay, WeekDay, DayCount;
    WeekDayCountsDays(d);
  }
}
