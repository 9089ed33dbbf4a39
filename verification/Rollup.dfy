/** The rollup generator (cmd/all-in-one/main.go, `startRollupGenerator` and `generateRollup`): one
    tick a minute, and at each tick the window of every interval that has just completed.

    Instants are nanoseconds since the Unix epoch, on which Truncate for these durations is
    aligned; `offset` is the whole number of minutes by which the local clock is ahead of UTC. */
module Rollup {

  datatype Interval = OneMinute | FiveMinutes | OneHour

  function Minutes(v: Interval): int {
    match v
    case OneMinute => 1
    case FiveMinutes => 5
    case OneHour => 60
  }

  /** A minute divided by the interval, and the remainder. */
  function Quotient(v: Interval, m: int): int {
    match v
    case OneMinute => m
    case FiveMinutes => m / 5
    case OneHour => m / 60
  }

  function Remainder(v: Interval, m: int): int {
    match v
    case OneMinute => 0
    case FiveMinutes => m % 5
    case OneHour => m % 60
  }

  function MinuteOf(now: int): int { now / 60_000_000_000 }

  function MinutesOf(ticks: seq<int>): (ms: seq<int>)
    ensures |ms| == |ticks| && forall i :: 0 <= i < |ms| ==> ms[i] == MinuteOf(ticks[i])
  {
    seq(|ticks|, i requires 0 <= i < |ticks| => MinuteOf(ticks[i]))
  }

  /** now.Minute(), for a now in minute m */
  function ClockMinute(m: int, offset: int): int { (m + offset) % 60 }

  /** The start of the window generated in minute m: truncated to the interval, one interval earlier. */
  function WindowStart(v: Interval, m: int): int {
    m - Remainder(v, m) - Minutes(v)
  }

  datatype Rollup = Rollup(interval: Interval, start: int)

  /** The ticker loop, over any sequence of ticks. */
  method Generate(ticks: seq<int>, offset: int) returns (made: seq<Rollup>)
    ensures forall v :: Starts(made, v) == Due(v, offset, MinutesOf(ticks))
    ensures EveryMinute(MinutesOf(ticks)) ==> forall v :: Tiles(Starts(made, v), Minutes(v))
  {
    made := [];
    ghost var ms := MinutesOf(ticks);
    for i := 0 to |ticks|
      invariant forall v :: Starts(made, v) == Due(v, offset, ms[..i])
    {
      var now := MinuteOf(ticks[i]);
      DueConditions(now, offset);
      ghost var before := made;
      made := made + [Rollup(OneMinute, WindowStart(OneMinute, now))];
      if ClockMinute(now, offset) % 5 == 0 {
        made := made + [Rollup(FiveMinutes, WindowStart(FiveMinutes, now))];
      }
      if ClockMinute(now, offset) == 0 {
        made := made + [Rollup(OneHour, WindowStart(OneHour, now))];
      }
      forall v ensures Starts(made, v) == Due(v, offset, ms[..i + 1]) {
        TickStarts(before, made, now, offset, v);
        DueSnoc(v, offset, ms, i);
      }
    }
    assert ms[..|ms|] == ms;
    if EveryMinute(ms) {
      forall v ensures Tiles(Starts(made, v), Minutes(v)) { WindowsTile(v, offset, ms); }
    }
  }

  /** The window starts of one interval, in the order they were generated. */
  function Starts(made: seq<Rollup>, v: Interval): seq<int> {
    if made == [] then []
    else Starts(made[..|made| - 1], v) + (if made[|made| - 1].interval == v then [made[|made| - 1].start] else [])
  }

  predicate DueAt(v: Interval, offset: int, m: int) { Remainder(v, m + offset) == 0 }

  /** The values at the flagged places. */
  function Kept(flags: seq<bool>, values: seq<int>): seq<int>
    requires |flags| == |values|
  {
    if flags == [] then []
    else
      var n := |flags| - 1;
      Kept(flags[..n], values[..n]) + (if flags[n] then [values[n]] else [])
  }

  function DueFlags(v: Interval, offset: int, ms: seq<int>): seq<bool> {
    seq(|ms|, i requires 0 <= i < |ms| => DueAt(v, offset, ms[i]))
  }

  function WindowStarts(v: Interval, ms: seq<int>): seq<int> {
    seq(|ms|, i requires 0 <= i < |ms| => WindowStart(v, ms[i]))
  }

  /** A window is due at the ticks whose local minute is a multiple of the interval. */
  function Due(v: Interval, offset: int, ms: seq<int>): seq<int> {
    Kept(DueFlags(v, offset, ms), WindowStarts(v, ms))
  }

  lemma DueSnoc(v: Interval, offset: int, ms: seq<int>, i: nat)
    requires i < |ms|
    ensures Due(v, offset, ms[..i + 1]) ==
            Due(v, offset, ms[..i]) + (if DueAt(v, offset, ms[i]) then [WindowStart(v, ms[i])] else [])
  {
    var next := ms[..i + 1];
    assert DueFlags(v, offset, next)[..i] == DueFlags(v, offset, ms[..i]);
    assert WindowStarts(v, next)[..i] == WindowStarts(v, ms[..i]);
  }

  lemma StartsSnoc(made: seq<Rollup>, r: Rollup, v: Interval)
    ensures Starts(made + [r], v) == if r.interval == v then Starts(made, v) + [r.start] else Starts(made, v)
  {
    assert (made + [r])[..|made|] == made;
  }

  /** The conditions of the loop on the local minute, against the intervals. */
  lemma DueConditions(m: int, offset: int)
    ensures DueAt(OneMinute, offset, m)
    ensures DueAt(FiveMinutes, offset, m) <==> ClockMinute(m, offset) % 5 == 0
    ensures DueAt(OneHour, offset, m) <==> ClockMinute(m, offset) == 0
  {
    assert (m + offset) % 60 % 5 == (m + offset) % 5;
  }

  lemma TickStarts(before: seq<Rollup>, after: seq<Rollup>, m: int, offset: int, v: Interval)
    requires var one := before + [Rollup(OneMinute, WindowStart(OneMinute, m))];
             var five := if !DueAt(FiveMinutes, offset, m) then one
                         else one + [Rollup(FiveMinutes, WindowStart(FiveMinutes, m))];
             after == if DueAt(OneHour, offset, m) then five + [Rollup(OneHour, WindowStart(OneHour, m))] else five
    ensures Starts(after, v) ==
            if DueAt(v, offset, m) then Starts(before, v) + [WindowStart(v, m)] else Starts(before, v)
  {
    DueConditions(m, offset);
    var one := before + [Rollup(OneMinute, WindowStart(OneMinute, m))];
    var five := if DueAt(FiveMinutes, offset, m) then one + [Rollup(FiveMinutes, WindowStart(FiveMinutes, m))] else one;
    StartsSnoc(before, Rollup(OneMinute, WindowStart(OneMinute, m)), v);
    StartsSnoc(one, Rollup(FiveMinutes, WindowStart(FiveMinutes, m)), v);
    StartsSnoc(five, Rollup(OneHour, WindowStart(OneHour, m)), v);
  }

  // ---------------------------------------------------------------- tiling

  /** The minutes of the ticks, when one tick falls in each consecutive clock minute. */
  ghost predicate EveryMinute(ms: seq<int>) {
    forall i :: 0 < i < |ms| ==> ms[i] == ms[i - 1] + 1
  }

  /** Where the window starts that was due last when minute m was ticked. */
  function LastDue(v: Interval, offset: int, m: int): int {
    var due := m - Remainder(v, m + offset);
    due - Remainder(v, due) - Minutes(v)
  }

  lemma NextDue(v: Interval, offset: int, m: int)
    ensures LastDue(v, offset, m) ==
            if Remainder(v, m + offset) == 0 then LastDue(v, offset, m - 1) + Minutes(v) else LastDue(v, offset, m - 1)
    ensures Remainder(v, m + offset) == 0 ==> LastDue(v, offset, m) == m - Remainder(v, m) - Minutes(v)
  {
    var r := Remainder(v, m + offset);
    StepRemainder(v, m + offset);
    if r == 0 {
      SameRemainder(v, m);
      assert m - 1 - Remainder(v, m - 1 + offset) == m - Minutes(v);
    } else {
      assert m - 1 - Remainder(v, m - 1 + offset) == m - r;
    }
  }

  lemma StepRemainder(v: Interval, x: int)
    ensures Remainder(v, x - 1) == if Remainder(v, x) == 0 then Minutes(v) - 1 else Remainder(v, x) - 1
  {
    match v
    case OneMinute =>
    case FiveMinutes => StepFive(x);
    case OneHour => StepSixty(x);
  }

  lemma StepFive(x: int)
    ensures (x - 1) % 5 == if x % 5 == 0 then 4 else x % 5 - 1
  {
    var q := x / 5;
    assert x == 5 * q + x % 5;
  }

  lemma StepSixty(x: int)
    ensures (x - 1) % 60 == if x % 60 == 0 then 59 else x % 60 - 1
  {
    var q := x / 60;
    assert x == 60 * q + x % 60;
  }

  lemma SameRemainder(v: Interval, m: int)
    ensures Remainder(v, m - Minutes(v)) == Remainder(v, m)
  {
  }

  /** Each window starts where the one before it ends. */
  ghost predicate Tiles(d: seq<int>, width: int) {
    forall i :: 0 < i < |d| ==> d[i] == d[i - 1] + width
  }

  /** When every kept value is the running position after a step of one width, and the position stays
      where no value is kept, the kept values tile. */
  lemma {:induction false} KeptTiles(flags: seq<bool>, values: seq<int>, at: seq<int>, width: int)
    requires |flags| == |values| && |at| == |flags| + 1
    requires forall i :: 0 <= i < |flags| ==> at[i + 1] == if flags[i] then at[i] + width else at[i]
    requires forall i :: 0 <= i < |flags| && flags[i] ==> values[i] == at[i + 1]
    ensures var d := Kept(flags, values); Tiles(d, width) && (d != [] ==> d[|d| - 1] == at[|flags|])
  {
    if flags != [] {
      var n := |flags| - 1;
      KeptTiles(flags[..n], values[..n], at[..n + 1], width);
    }
  }

  /** The last due window before the first of n consecutive minutes, and after each of them. */
  function Positions(v: Interval, offset: int, first: int, n: nat): seq<int> {
    seq(n + 1, i => LastDue(v, offset, first + i - 1))
  }

  lemma PositionStep(v: Interval, offset: int, first: int, n: nat, i: nat, m: int)
    requires i < n && m == first + i
    ensures var at := Positions(v, offset, first, n);
            && at[i + 1] == (if DueAt(v, offset, m) then at[i] + Minutes(v) else at[i])
            && (DueAt(v, offset, m) ==> WindowStart(v, m) == at[i + 1])
  {
    assert first + i - 1 == m - 1 && first + (i + 1) - 1 == m;
    NextDue(v, offset, m);
  }

  /** For every interval and every whole-minute zone offset, the generated windows tile time: each
      starts where the one before it ends, so there is no gap, no overlap and no repetition. */
  lemma WindowsTile(v: Interval, offset: int, ms: seq<int>)
    requires EveryMinute(ms)
    ensures var d := Due(v, offset, ms);
            && Tiles(d, Minutes(v))
            && (d != [] ==> ms != [] && d[|d| - 1] == LastDue(v, offset, ms[|ms| - 1]))
  {
    if ms != [] {
      WindowsTileFrom(v, offset, ms, DueFlags(v, offset, ms), WindowStarts(v, ms), Positions(v, offset, ms[0], |ms|));
      TickMinutes(ms, |ms| - 1);
      assert ms[0] + |ms| - 1 == ms[|ms| - 1];
    }
  }

  lemma WindowsTileFrom(v: Interval, offset: int, ms: seq<int>, flags: seq<bool>, values: seq<int>, at: seq<int>)
    requires EveryMinute(ms) && ms != [] && at == Positions(v, offset, ms[0], |ms|)
    requires flags == DueFlags(v, offset, ms) && values == WindowStarts(v, ms)
    ensures var d := Kept(flags, values); Tiles(d, Minutes(v)) && (d != [] ==> d[|d| - 1] == at[|ms|])
  {
    forall i | 0 <= i < |ms|
      ensures at[i + 1] == (if flags[i] then at[i] + Minutes(v) else at[i]) && (flags[i] ==> values[i] == at[i + 1])
    {
      TickMinutes(ms, i);
      PositionStep(v, offset, ms[0], |ms|, i, ms[i]);
    }
    KeptTiles(flags, values, at, Minutes(v));
  }

  /** Each window is the latest one that was complete at its tick. */
  lemma LatestCompleted(v: Interval, m: int)
    ensures var w := WindowStart(v, m); w + Minutes(v) <= m < w + 2 * Minutes(v)
    ensures Remainder(v, WindowStart(v, m)) == 0
  {
    match v
    case OneMinute =>
    case FiveMinutes => LatestFive(m);
    case OneHour => LatestHour(m);
  }

  lemma LatestFive(m: int)
    ensures var w := m - m % 5 - 5; w + 5 <= m < w + 10 && w % 5 == 0
  {
    var q := m / 5;
    assert m == 5 * q + m % 5;
    assert m - m % 5 - 5 == 5 * (q - 1);
  }

  lemma LatestHour(m: int)
    ensures var w := m - m % 60 - 60; w + 60 <= m < w + 120 && w % 60 == 0
  {
    var q := m / 60;
    assert m == 60 * q + m % 60;
    assert m - m % 60 - 60 == 60 * (q - 1);
  }

  /** When a count goes up by one exactly where a value is kept, it counts the kept values. */
  lemma {:induction false} KeptCount(flags: seq<bool>, values: seq<int>, count: seq<int>)
    requires |flags| == |values| && |count| == |flags| + 1
    requires forall i :: 0 <= i < |flags| ==> count[i + 1] == count[i] + if flags[i] then 1 else 0
    ensures |Kept(flags, values)| == count[|flags|] - count[0]
  {
    if flags != [] {
      var n := |flags| - 1;
      KeptCount(flags[..n], values[..n], count[..n + 1]);
    }
  }

  /** The quotients of n + 1 consecutive minutes. */
  function Quotients(v: Interval, first: int, n: nat): seq<int> {
    seq(n + 1, i => Quotient(v, first + i))
  }

  lemma QuotientStep(v: Interval, first: int, n: nat, i: nat, m: int)
    requires i < n && m == first + i + 1
    ensures var count := Quotients(v, first, n);
            count[i + 1] == count[i] + if Remainder(v, m) == 0 then 1 else 0
  {
    assert first + i == m - 1 && first + (i + 1) == m;
    StepQuotient(v, m);
  }

  /** How many windows n consecutive minutes generate: within any span of one interval, exactly one. */
  lemma OneWindowPerInterval(v: Interval, offset: int, ms: seq<int>)
    requires EveryMinute(ms) && ms != []
    ensures |Due(v, offset, ms)| ==
            Quotient(v, ms[0] + offset + |ms| - 1) - Quotient(v, ms[0] + offset - 1)
  {
    var first := ms[0] + offset - 1;
    WindowCount(v, offset, ms, DueFlags(v, offset, ms), WindowStarts(v, ms), Quotients(v, first, |ms|));
    assert first + |ms| == ms[0] + offset + |ms| - 1 && first + 0 == first;
  }

  lemma WindowCount(v: Interval, offset: int, ms: seq<int>, flags: seq<bool>, values: seq<int>, count: seq<int>)
    requires EveryMinute(ms) && ms != [] && count == Quotients(v, ms[0] + offset - 1, |ms|)
    requires flags == DueFlags(v, offset, ms) && |values| == |ms|
    ensures |Kept(flags, values)| == count[|ms|] - count[0]
  {
    forall i | 0 <= i < |ms| ensures count[i + 1] == count[i] + if flags[i] then 1 else 0 {
      TickMinutes(ms, i);
      QuotientStep(v, ms[0] + offset - 1, |ms|, i, ms[i] + offset);
    }
    KeptCount(flags, values, count);
  }

  lemma StepQuotient(v: Interval, m: int)
    ensures Quotient(v, m) - Quotient(v, m - 1) == if Remainder(v, m) == 0 then 1 else 0
  {
    match v
    case OneMinute =>
    case FiveMinutes => StepFifths(m);
    case OneHour => StepHours(m);
  }

  lemma StepFifths(m: int)
    ensures m / 5 - (m - 1) / 5 == if m % 5 == 0 then 1 else 0
  {
    var q := m / 5;
    assert m - 1 == if m % 5 == 0 then 5 * (q - 1) + 4 else 5 * q + (m % 5 - 1);
  }

  lemma StepHours(m: int)
    ensures m / 60 - (m - 1) / 60 == if m % 60 == 0 then 1 else 0
  {
    var q := m / 60;
    assert m - 1 == if m % 60 == 0 then 60 * (q - 1) + 59 else 60 * q + (m % 60 - 1);
  }

  lemma {:induction false} TickMinutes(ms: seq<int>, i: nat)
    requires EveryMinute(ms) && i < |ms|
    ensures ms[i] == ms[0] + i
  {
    if i > 0 { TickMinutes(ms, i - 1); }
  }
}
