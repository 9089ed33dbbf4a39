/** Blackout windows (extension/changewindow/changewindow.go), in a zone with a fixed offset.

    Instants are nanoseconds since the Unix epoch; a local time is an instant plus the zone's
    offset, and day 0 of the local calendar is Thursday 1 January 1970. */
module ChangeWindow {
  import opened GoStrings

  /** Days, and minutes, in a week. */
  const WEEKDAYS: nat := 7
  const WEEK: int := 10080

  /** So many minutes, in nanoseconds. */
  function Nanos(minutes: int): int { minutes * 60_000_000_000 }

  /** The local minute a local time falls in, counted from the epoch. */
  function MinuteOf(local: int): int { local / 60_000_000_000 }

  datatype HM = HM(h: int, m: int) {
    predicate Lt(b: HM) { if h != b.h then h < b.h else m < b.m }
    function Minutes(): int { h * 60 + m }
    predicate Valid() { 0 <= h < 24 && 0 <= m < 60 }
  }

  /** An optional RFC 3339 bound: left empty, unreadable, or an instant. */
  datatype Bound = Unset | Unreadable | At(instant: int)

  predicate IsDigit(c: char) { '0' <= c <= '9' }

  function TwoDigits(s: string, i: nat): int
    requires i + 1 < |s|
  {
    10 * (s[i] as int - '0' as int) + (s[i + 1] as int - '0' as int)
  }

  /** parseHM: five characters HH:MM naming a time of day, white space around them ignored. */
  function ParseHM(raw: string): (t: Option<HM>)
    ensures t.Some? ==> t.value.Valid()
  {
    var s := TrimSpace(raw);
    if |s| != 5 || s[2] != ':' || !IsDigit(s[0]) || !IsDigit(s[1]) || !IsDigit(s[3]) || !IsDigit(s[4]) then None
    else
      var t := HM(TwoDigits(s, 0), TwoDigits(s, 3));
      if t.h < 24 && t.m < 60 then Some(t) else None
  }

  function Digit(n: int): char
    requires 0 <= n < 10
  {
    (n + '0' as int) as char
  }

  /** A time of day as the API stores it. */
  function Clock(t: HM): string
    requires t.Valid()
  {
    [Digit(t.h / 10), Digit(t.h % 10), ':', Digit(t.m / 10), Digit(t.m % 10)]
  }

  /** Every time of day can be written, and is read back as itself. */
  lemma ClockReadBack(t: HM)
    requires t.Valid()
    ensures ParseHM(Clock(t)) == Some(t)
  {
    TrimOfTrimmed(Clock(t));
  }

  /** A text is read as a time of day if and only if it is one, written that way, up to white space. */
  lemma ParsesExactly(raw: string, t: HM)
    ensures ParseHM(raw) == Some(t) <==> t.Valid() && TrimSpace(raw) == Clock(t)
  {
    var s := TrimSpace(raw);
    if ParseHM(raw) == Some(t) {
      TwoDigitsWritten(s, 0);
      TwoDigitsWritten(s, 3);
      assert s == [s[0], s[1], s[2], s[3], s[4]];
    }
  }

  lemma TwoDigitsWritten(s: string, i: nat)
    requires i + 1 < |s| && IsDigit(s[i]) && IsDigit(s[i + 1])
    ensures var n := TwoDigits(s, i); 0 <= n < 100 && s[i] == Digit(n / 10) && s[i + 1] == Digit(n % 10)
  {
  }

  /** A window. A timezone that cannot be loaded has no offset. */
  datatype Window = Window(
    days: seq<int>, startLocal: string, endLocal: string, offset: Option<int>, from: Bound, to: Bound)

  function DayOf(local: int): int { MinuteOf(local) / 1440 }

  function Weekday(day: int): int { (day + 4) % WEEKDAYS }

  /** Days of the week count from Sunday: 1 January 1970 was a Thursday, 1 January 2000 a Saturday, and
      each day is followed by the next. */
  lemma KnownWeekdays(day: int)
    ensures Weekday(0) == 4 && Weekday(10_957) == 6
    ensures 0 <= Weekday(day) < 7 && Weekday(day + 1) == if Weekday(day) == 6 then 0 else Weekday(day) + 1
  {
  }

  // ---------------------------------------------------------------- the meaning of a window

  predicate DowListed(days: seq<int>, dow: int) { days == [] || dow in days }

  /** How long one occurrence lasts, in minutes; it wraps midnight when it ends before it starts. */
  function Length(start: HM, end: HM): int {
    if end.Lt(start) then 1440 - start.Minutes() + end.Minutes() else end.Minutes() - start.Minutes()
  }

  /** The occurrence that starts on `day` contains the local time. */
  predicate Covers(days: seq<int>, start: HM, end: HM, day: int, local: int) {
    var begin := Date(day, start);
    DowListed(days, Weekday(day)) && begin <= local < begin + Nanos(Length(start, end))
  }

  /** Some day's occurrence, among all days there are, contains the local time. */
  ghost predicate Weekly(days: seq<int>, start: HM, end: HM, local: int) {
    exists day: int :: Covers(days, start, end, day, local)
  }

  predicate InRange(w: Window, now: int) {
    (w.from.At? ==> w.from.instant <= now) && (w.to.At? ==> now <= w.to.instant)
  }

  /** Both ends of the effective range belong to it. */
  lemma RangeIncludesEnds(w: Window, from: int, to: int)
    requires w.from == At(from) && w.to == At(to) && from <= to
    ensures InRange(w, from) && InRange(w, to) && !InRange(w, from - 1) && !InRange(w, to + 1)
  {
  }

  ghost predicate Active(w: Window, now: int) {
    InRange(w, now) && w.offset.Some? && ParseHM(w.startLocal).Some? && ParseHM(w.endLocal).Some? &&
    Weekly(w.days, ParseHM(w.startLocal).value, ParseHM(w.endLocal).value, now + w.offset.value)
  }

  // ---------------------------------------------------------------- the code

  /** dowMatches */
  method DowMatches(days: seq<int>, wanted: int) returns (r: bool)
    ensures r == DowListed(days, wanted)
  {
    if |days| == 0 { return true; }
    for i := 0 to |days|
      invariant wanted !in days[..i]
    {
      if days[i] == wanted { return true; }
    }
    return false;
  }

  /** wrapDuration, in minutes */
  function WrapDuration(start: HM, end: HM): int {
    (24 * 60 - (start.h * 60 + start.m)) + (end.h * 60 + end.m)
  }

  /** time.Date(year, month, day, h, m, 0, 0, loc) as a local time. */
  function Date(day: int, t: HM): int { Nanos(day * 1440 + t.Minutes()) }

  /** Window.IsActive: only today's and yesterday's occurrences are looked at. */
  method IsActive(w: Window, now: int) returns (r: bool)
    ensures r <==> Active(w, now)
  {
    if w.from.At? && now < w.from.instant { return false; }
    if w.to.At? && now > w.to.instant { return false; }
    if w.offset.None? { return false; }
    var local := now + w.offset.value;
    var s := ParseHM(w.startLocal);
    if s.None? { return false; }
    var e := ParseHM(w.endLocal);
    if e.None? { return false; }
    var start, end := s.value, e.value;
    var today := DayOf(local);
    OnlyTodayOrYesterday(w.days, start, end, local);

    var active := ActiveToday(w.days, start, end, today, local);
    if active { return true; }
    if end.Lt(start) {
      r := ActiveSinceYesterday(w.days, start, end, today - 1, local);
      return;
    }
    return false;
  }

  /** The block of IsActive for an occurrence that starts today. */
  method ActiveToday(days: seq<int>, start: HM, end: HM, today: int, local: int) returns (r: bool)
    ensures r <==> Covers(days, start, end, today, local)
  {
    var listed := DowMatches(days, Weekday(today));
    if listed {
      var todayStart := Date(today, start);
      var todayEnd := Date(today, end);
      if end.Lt(start) { todayEnd := todayEnd + Nanos(24 * 60); }
      if !(local < todayStart) && local < todayEnd { return true; }
    }
    return false;
  }

  /** The block for a wrapping occurrence that started yesterday. */
  method ActiveSinceYesterday(days: seq<int>, start: HM, end: HM, yesterday: int, local: int) returns (r: bool)
    requires end.Lt(start)
    ensures r <==> Covers(days, start, end, yesterday, local)
  {
    var listed := DowMatches(days, Weekday(yesterday));
    if listed {
      var tailStart := Date(yesterday, start);
      var tailEnd := tailStart + Nanos(WrapDuration(start, end));
      if !(local < tailStart) && local < tailEnd { return true; }
    }
    return false;
  }

  /** Checking two days loses nothing, and yesterday matters only to a window that wraps. */
  lemma OnlyTodayOrYesterday(days: seq<int>, start: HM, end: HM, local: int)
    requires start.Valid() && end.Valid()
    ensures Weekly(days, start, end, local) <==>
            Covers(days, start, end, DayOf(local), local) ||
            (end.Lt(start) && Covers(days, start, end, DayOf(local) - 1, local))
  {
    forall day: int | Covers(days, start, end, day, local)
      ensures day == DayOf(local) || (end.Lt(start) && day == DayOf(local) - 1) { }
  }

  /** FirstActive */
  method FirstActive(windows: seq<Window>, now: int) returns (k: Option<nat>)
    ensures match k
            case Some(i) =>
              i < |windows| && Active(windows[i], now) && forall j :: 0 <= j < i ==> !Active(windows[j], now)
            case None => forall j :: 0 <= j < |windows| ==> !Active(windows[j], now)
  {
    for i := 0 to |windows|
      invariant forall j :: 0 <= j < i ==> !Active(windows[j], now)
    {
      var active := IsActive(windows[i], now);
      if active { return Some(i); }
    }
    return None;
  }

  // ---------------------------------------------------------------- equal start and end

  /** The comments on Window and IsActive promise that an end equal to the start wraps as well. */
  predicate DocumentedCovers(days: seq<int>, start: HM, end: HM, day: int, local: int) {
    var begin := Date(day, start);
    var length := if start.Lt(end) then end.Minutes() - start.Minutes() else 1440 - start.Minutes() + end.Minutes();
    DowListed(days, Weekday(day)) && begin <= local < begin + Nanos(length)
  }

  ghost predicate DocumentedWeekly(days: seq<int>, start: HM, end: HM, local: int) {
    exists day: int :: DocumentedCovers(days, start, end, day, local)
  }

  /** The code keeps that promise at every moment if and only if the two times differ or no
      weekday is listed at all; a window from a time to itself is never active. */
  lemma WrapPromiseKeptExactly(days: seq<int>, start: HM, end: HM)
    requires start.Valid() && end.Valid()
    ensures (forall local :: Weekly(days, start, end, local) <==> DocumentedWeekly(days, start, end, local)) <==>
            (start != end || forall dow :: 0 <= dow < WEEKDAYS ==> !DowListed(days, dow))
    ensures start == end ==> forall local :: !Weekly(days, start, end, local)
  {
    if start != end {
      assert start.Lt(end) <==> !end.Lt(start);
      forall local ensures Weekly(days, start, end, local) <==> DocumentedWeekly(days, start, end, local) {
        assert forall day :: Covers(days, start, end, day, local) == DocumentedCovers(days, start, end, day, local);
      }
    } else if dow :| 0 <= dow < WEEKDAYS && DowListed(days, dow) {
      var day := dow + 3;
      assert Weekday(day) == dow;
      var local := Date(day, start);
      assert DocumentedCovers(days, start, end, day, local);
      assert DocumentedWeekly(days, start, end, local);
      assert !Weekly(days, start, end, local);
    } else {
      forall local ensures !DocumentedWeekly(days, start, end, local) {
        assert forall day :: !DocumentedCovers(days, start, end, day, local);
      }
    }
  }

  // ---------------------------------------------------------------- how much of a week is covered

  /** A window is active during a whole local minute or not at all in it. */
  lemma WholeMinutes(days: seq<int>, start: HM, end: HM, p: int, q: int)
    requires MinuteOf(p) == MinuteOf(q)
    ensures Weekly(days, start, end, p) <==> Weekly(days, start, end, q)
  {
    forall day: int ensures Covers(days, start, end, day, p) == Covers(days, start, end, day, q) { }
  }

  /** Activity in minute i of day d: in its own occurrence, or in the tail of the one before. */
  predicate InDay(days: seq<int>, start: HM, end: HM, d: int, i: int) {
    if end.Lt(start) then
      (DowListed(days, Weekday(d)) && start.Minutes() <= i) || (DowListed(days, Weekday(d - 1)) && i < end.Minutes())
    else DowListed(days, Weekday(d)) && start.Minutes() <= i < end.Minutes()
  }

  /** Activity during a minute counted from the epoch. */
  predicate ActiveMinute(days: seq<int>, start: HM, end: HM, minute: int) {
    InDay(days, start, end, minute / 1440, minute % 1440)
  }

  lemma ActiveMinuteIsWeekly(days: seq<int>, start: HM, end: HM, local: int)
    requires start.Valid() && end.Valid()
    ensures ActiveMinute(days, start, end, MinuteOf(local)) <==> Weekly(days, start, end, local)
  {
    OnlyTodayOrYesterday(days, start, end, local);
    assert end.Lt(start) <==> end.Minutes() < start.Minutes();
  }

  /** Activity has a period of seven days. */
  lemma WeeklyPeriod(days: seq<int>, start: HM, end: HM, minute: int)
    ensures ActiveMinute(days, start, end, minute + WEEK) == ActiveMinute(days, start, end, minute)
  {
    assert (minute + WEEK) / 1440 == minute / 1440 + WEEKDAYS;
    assert (minute + WEEK) % 1440 == minute % 1440;
  }

  /** The number of active minutes in lo..hi. */
  function ActiveCount(days: seq<int>, start: HM, end: HM, lo: int, hi: int): nat
    decreases hi - lo
  {
    if hi <= lo then 0
    else ActiveCount(days, start, end, lo, hi - 1) + (if ActiveMinute(days, start, end, hi - 1) then 1 else 0)
  }

  lemma {:induction false} CountSplit(days: seq<int>, start: HM, end: HM, lo: int, mid: int, hi: int)
    requires lo <= mid <= hi
    ensures ActiveCount(days, start, end, lo, hi) ==
            ActiveCount(days, start, end, lo, mid) + ActiveCount(days, start, end, mid, hi)
    decreases hi - mid
  {
    if mid < hi { CountSplit(days, start, end, lo, mid, hi - 1); }
  }

  lemma MinuteOfDay(days: seq<int>, start: HM, end: HM, d: int, i: int)
    requires 0 <= i < 1440
    ensures ActiveMinute(days, start, end, 1440 * d + i) == InDay(days, start, end, d, i)
  {
    assert (1440 * d + i) / 1440 == d && (1440 * d + i) % 1440 == i;
  }

  lemma {:induction false} CountConstant(days: seq<int>, start: HM, end: HM, d: int, lo: int, hi: int, active: bool)
    requires 0 <= lo <= hi <= 1440
    requires forall i :: lo <= i < hi ==> InDay(days, start, end, d, i) == active
    ensures ActiveCount(days, start, end, 1440 * d + lo, 1440 * d + hi) == if active then hi - lo else 0
    decreases hi - lo
  {
    if lo < hi {
      CountConstant(days, start, end, d, lo, hi - 1, active);
      MinuteOfDay(days, start, end, d, hi - 1);
    }
  }

  function Listed(days: seq<int>, dow: int): nat { if DowListed(days, dow) then 1 else 0 }

  /** What day d contributes when a listed day is worth x minutes. */
  function Share(days: seq<int>, d: int, x: int): int { if DowListed(days, Weekday(d)) then x else 0 }

  /** One local day: its own occurrence, and the tail of the one before. */
  lemma CountDay(days: seq<int>, start: HM, end: HM, d: int)
    requires start.Valid() && end.Valid()
    ensures ActiveCount(days, start, end, 1440 * d, 1440 * d + 1440) ==
            if end.Lt(start) then
              Share(days, d, 1440 - start.Minutes()) + Share(days, d - 1, end.Minutes())
            else Share(days, d, end.Minutes() - start.Minutes())
  {
    if end.Lt(start) { CountWrappingDay(days, start, end, d); } else { CountPlainDay(days, start, end, d); }
  }

  lemma CountWrappingDay(days: seq<int>, start: HM, end: HM, d: int)
    requires start.Valid() && end.Valid() && end.Lt(start)
    ensures ActiveCount(days, start, end, 1440 * d, 1440 * d + 1440) ==
            Share(days, d, 1440 - start.Minutes()) + Share(days, d - 1, end.Minutes())
  {
    var base, s, e := 1440 * d, start.Minutes(), end.Minutes();
    assert 0 <= e < s < 1440;
    CountSplit(days, start, end, base, base + e, base + 1440);
    CountSplit(days, start, end, base + e, base + s, base + 1440);
    CountConstant(days, start, end, d, 0, e, DowListed(days, Weekday(d - 1)));
    CountConstant(days, start, end, d, e, s, false);
    CountConstant(days, start, end, d, s, 1440, DowListed(days, Weekday(d)));
  }

  lemma CountPlainDay(days: seq<int>, start: HM, end: HM, d: int)
    requires start.Valid() && end.Valid() && !end.Lt(start)
    ensures ActiveCount(days, start, end, 1440 * d, 1440 * d + 1440) == Share(days, d, end.Minutes() - start.Minutes())
  {
    var base, s, e := 1440 * d, start.Minutes(), end.Minutes();
    assert 0 <= s <= e < 1440;
    CountSplit(days, start, end, base, base + s, base + 1440);
    CountSplit(days, start, end, base + s, base + e, base + 1440);
    CountConstant(days, start, end, d, 0, s, false);
    CountConstant(days, start, end, d, s, e, DowListed(days, Weekday(d)));
    CountConstant(days, start, end, d, e, 1440, false);
  }

  /** A seven-day span has the same count wherever it starts. */
  lemma {:induction false} CountSlides(days: seq<int>, start: HM, end: HM, lo: int)
    ensures ActiveCount(days, start, end, lo, lo + WEEK) == ActiveCount(days, start, end, 0, WEEK)
    decreases if lo < 0 then -lo else lo
  {
    if lo != 0 {
      var at := if lo > 0 then lo - 1 else lo;
      CountSlides(days, start, end, if lo > 0 then lo - 1 else lo + 1);
      SlideByOne(days, start, end, at);
    }
  }

  lemma SlideByOne(days: seq<int>, start: HM, end: HM, at: int)
    ensures ActiveCount(days, start, end, at, at + WEEK) == ActiveCount(days, start, end, at + 1, at + 1 + WEEK)
  {
    CountSplit(days, start, end, at, at + 1, at + WEEK + 1);
    CountSplit(days, start, end, at, at + WEEK, at + WEEK + 1);
    WeeklyPeriod(days, start, end, at);
    assert ActiveCount(days, start, end, at, at) == 0;
    assert ActiveCount(days, start, end, at + WEEK, at + WEEK) == 0;
  }

  /** The weekdays a window applies to. */
  function ListedDays(days: seq<int>): set<int> { set dow | 0 <= dow < WEEKDAYS && DowListed(days, dow) }

  lemma {:induction false} CardinalityBelow(days: seq<int>, n: nat)
    requires n <= WEEKDAYS
    ensures |set dow | 0 <= dow < n && DowListed(days, dow)| == SumListed(days, n)
  {
    if n > 0 {
      CardinalityBelow(days, n - 1);
      var small := set dow | 0 <= dow < n - 1 && DowListed(days, dow);
      var big := set dow | 0 <= dow < n && DowListed(days, dow);
      assert big == if DowListed(days, n - 1) then small + {n - 1} else small;
    }
  }

  function SumListed(days: seq<int>, n: nat): nat {
    if n == 0 then 0 else SumListed(days, n - 1) + Listed(days, n - 1)
  }

  /** The length of the window modulo a day. */
  function DailyMinutes(start: HM, end: HM): int { (end.Minutes() - start.Minutes()) % 1440 }

  /** Any seven days, from any minute on, hold exactly as many active minutes as there are listed
      weekdays times the length of one occurrence. */
  lemma WeekTotal(days: seq<int>, start: HM, end: HM, lo: int)
    requires start.Valid() && end.Valid()
    ensures ActiveCount(days, start, end, lo, lo + WEEK) == |ListedDays(days)| * DailyMinutes(start, end)
  {
    CountSlides(days, start, end, lo);
    CardinalityBelow(days, WEEKDAYS);
    WeekFromThursday(days, start, end);
  }

  lemma SumOfSeven(days: seq<int>)
    ensures SumListed(days, WEEKDAYS) == Listed(days, 0) + Listed(days, 1) + Listed(days, 2) + Listed(days, 3) +
                                  Listed(days, 4) + Listed(days, 5) + Listed(days, 6)
  {
    assert SumListed(days, 1) == Listed(days, 0);
    assert SumListed(days, 3) == SumListed(days, 1) + Listed(days, 1) + Listed(days, 2);
    assert SumListed(days, 5) == SumListed(days, 3) + Listed(days, 3) + Listed(days, 4);
  }

  lemma {:induction false} CountDays(days: seq<int>, start: HM, end: HM, n: nat)
    requires start.Valid() && end.Valid()
    ensures ActiveCount(days, start, end, 0, 1440 * n) ==
            if end.Lt(start) then Shares(days, 0, n, 1440 - start.Minutes()) + Shares(days, -1, n, end.Minutes())
            else Shares(days, 0, n, end.Minutes() - start.Minutes())
  {
    if n > 0 {
      CountDays(days, start, end, n - 1);
      CountDay(days, start, end, n - 1);
      CountSplit(days, start, end, 0, 1440 * (n - 1), 1440 * n);
    }
  }

  function Shares(days: seq<int>, first: int, n: nat, x: int): int {
    if n == 0 then 0 else Shares(days, first, n - 1, x) + Share(days, first + n - 1, x)
  }

  lemma {:induction false} SharesAreProduct(days: seq<int>, first: int, n: nat, x: int)
    ensures Shares(days, first, n, x) == SumFrom(days, first, n) * x
  {
    if n > 0 {
      SharesAreProduct(days, first, n - 1, x);
      var s := SumFrom(days, first, n - 1);
      assert (s + 1) * x == s * x + x;
    }
  }

  /** How many of the n days from day `first` on are listed. */
  function SumFrom(days: seq<int>, first: int, n: nat): nat {
    if n == 0 then 0 else SumFrom(days, first, n - 1) + Listed(days, Weekday(first + n - 1))
  }

  lemma SumFromSeven(days: seq<int>, first: int)
    requires first == 0 || first == -1
    ensures SumFrom(days, first, WEEKDAYS) == Listed(days, 0) + Listed(days, 1) + Listed(days, 2) + Listed(days, 3) +
                                       Listed(days, 4) + Listed(days, 5) + Listed(days, 6)
  {
    assert SumFrom(days, first, 1) == Listed(days, Weekday(first));
    assert SumFrom(days, first, 3) ==
           SumFrom(days, first, 1) + Listed(days, Weekday(first + 1)) + Listed(days, Weekday(first + 2));
    assert SumFrom(days, first, 5) ==
           SumFrom(days, first, 3) + Listed(days, Weekday(first + 3)) + Listed(days, Weekday(first + 4));
  }

  /** The week that begins on day 0, a Thursday. */
  lemma WeekFromThursday(days: seq<int>, start: HM, end: HM)
    requires start.Valid() && end.Valid()
    ensures ActiveCount(days, start, end, 0, WEEK) == SumListed(days, WEEKDAYS) * DailyMinutes(start, end)
  {
    CountDays(days, start, end, WEEKDAYS);
    WeekOfShares(days, 0, if end.Lt(start) then 1440 - start.Minutes() else end.Minutes() - start.Minutes());
    WeekOfShares(days, -1, end.Minutes());
    TotalOfWeek(SumListed(days, WEEKDAYS), start, end);
  }

  /** A week of shares, from Thursday or from Wednesday on. */
  lemma WeekOfShares(days: seq<int>, first: int, x: int)
    requires first == 0 || first == -1
    ensures Shares(days, first, WEEKDAYS, x) == SumListed(days, WEEKDAYS) * x
  {
    SumOfSeven(days);
    SumFromSeven(days, first);
    SharesAreProduct(days, first, WEEKDAYS, x);
  }

  lemma TotalOfWeek(k: int, start: HM, end: HM)
    requires start.Valid() && end.Valid()
    ensures var s, e := start.Minutes(), end.Minutes();
            k * DailyMinutes(start, end) == if end.Lt(start) then k * (1440 - s) + k * e else k * (e - s)
  {
    var s, e := start.Minutes(), end.Minutes();
    if end.Lt(start) {
      assert DailyMinutes(start, end) == 1440 - s + e;
      Distribute(k, 1440 - s, e);
    } else {
      assert DailyMinutes(start, end) == e - s;
    }
  }

  lemma Distribute(k: int, x: int, y: int)
    ensures k * x + k * y == k * (x + y)
  {
  }
}
