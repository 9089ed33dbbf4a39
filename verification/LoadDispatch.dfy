/** The paced dispatcher of the OTLP load generator (cmd/otlpsim/main.go): `dispatch`, `pickSignal`
    and `parseMix`, with the floating-point accumulator as an exact real. */
module LoadDispatch {
  import opened GoStrings

  datatype Signal = Metrics | Logs | Traces

  /** rate and agents are positive and the mix adds up to 100 once the flags are accepted. */
  datatype Config = Config(agents: int, rate: int, duration: int, ramp: int, mixMetrics: int, mixLogs: int,
                           mixTraces: int)
  {
    predicate Accepted() {
      agents > 0 && rate > 0 && mixMetrics >= 0 && mixLogs >= 0 && mixTraces >= 0 &&
        mixMetrics + mixLogs + mixTraces == SLOTS
    }
  }

  datatype Job = Job(agent: int, kind: Signal, seqNo: int)

  // ---------------------------------------------------------------- dealing

  /** The mix is dealt anew every so many jobs. */
  const SLOTS: nat := 100

  /** pickSignal */
  function PickSignal(c: Config, n: int): Signal {
    var slot := n % SLOTS;
    if slot < c.mixMetrics then Metrics else if slot < c.mixMetrics + c.mixLogs then Logs else Traces
  }

  function Dealt(c: Config, kind: Signal, lo: int, n: nat): nat {
    if n == 0 then 0 else Dealt(c, kind, lo, n - 1) + (if PickSignal(c, lo + n - 1) == kind then 1 else 0)
  }

  function Share(c: Config, kind: Signal): int {
    match kind
    case Metrics => c.mixMetrics
    case Logs => c.mixLogs
    case Traces => c.mixTraces
  }

  lemma {:induction false} DealtFront(c: Config, kind: Signal, lo: int, n: nat)
    ensures Dealt(c, kind, lo, n + 1) == (if PickSignal(c, lo) == kind then 1 else 0) + Dealt(c, kind, lo + 1, n)
  {
    if n > 0 { DealtFront(c, kind, lo, n - 1); }
  }

  lemma {:induction false} DealtFromZero(c: Config, n: nat)
    requires c.Accepted() && n <= SLOTS
    ensures Dealt(c, Metrics, 0, n) == Clip(n, 0, c.mixMetrics)
    ensures Dealt(c, Logs, 0, n) == Clip(n, c.mixMetrics, c.mixMetrics + c.mixLogs)
    ensures Dealt(c, Traces, 0, n) == Clip(n, c.mixMetrics + c.mixLogs, SLOTS)
  {
    if n > 0 { DealtFromZero(c, n - 1); }
  }

  /** How much of lo..hi lies below n. */
  function Clip(n: int, lo: int, hi: int): int { if n <= lo then 0 else if n <= hi then n - lo else hi - lo }

  /** Any 100 consecutive sequence numbers hold exactly the requested number of each signal. */
  lemma {:induction false} MixIsExact(c: Config, kind: Signal, lo: nat)
    requires c.Accepted()
    ensures Dealt(c, kind, lo, SLOTS) == Share(c, kind)
    decreases lo
  {
    if lo == 0 {
      DealtFromZero(c, SLOTS);
    } else {
      MixIsExact(c, kind, lo - 1);
      SlotsRepeat(c, lo - 1);
      DealtMoves(c, kind, lo - 1, SLOTS);
    }
  }

  /** Moving on by one takes in a number that deals like the one it drops. */
  lemma DealtMoves(c: Config, kind: Signal, lo: int, n: nat)
    requires PickSignal(c, lo + n) == PickSignal(c, lo)
    ensures Dealt(c, kind, lo + 1, n) == Dealt(c, kind, lo, n)
  {
    DealtFront(c, kind, lo, n);
    assert Dealt(c, kind, lo, n + 1) == Dealt(c, kind, lo, n) + if PickSignal(c, lo + n) == kind then 1 else 0;
  }

  lemma SlotsRepeat(c: Config, n: int)
    ensures PickSignal(c, n + SLOTS) == PickSignal(c, n)
  {
    assert (n + SLOTS) % SLOTS == n % SLOTS;
  }

  /** Every hundred numbers begin with the metrics and end with the traces. */
  lemma DealtInOrder(c: Config, block: nat, slot: nat)
    requires c.Accepted() && slot < 100
    ensures var kind := PickSignal(c, 100 * block + slot);
            && (kind == Metrics <==> slot < c.mixMetrics)
            && (kind == Traces <==> slot >= 100 - c.mixTraces)
  {
    assert (100 * block + slot) % SLOTS == slot;
  }

  // ---------------------------------------------------------------- pacing

  /** The rate in force so long after the start: linear from 0 during the ramp. */
  function EffectiveRate(c: Config, since: int): real {
    if c.ramp > 0 && since < c.ramp then c.rate as real * (since as real / c.ramp as real) else c.rate as real
  }

  /** What one 100 ms tick adds to the budget. */
  function Budget(c: Config, since: int): real { EffectiveRate(c, since) * 0.1 }

  predicate Expired(c: Config, since: int) { c.duration > 0 && since > c.duration }

  /** The summed budget of the ticks up to the deadline. */
  function Total(c: Config, ticks: seq<nat>): real {
    if ticks == [] then 0.0 else Total(c, ticks[..|ticks| - 1]) + Budget(c, ticks[|ticks| - 1])
  }

  /** The ticks before the first one past the deadline. */
  function Live(c: Config, ticks: seq<nat>): seq<nat> {
    if ticks == [] || Expired(c, ticks[0]) then [] else [ticks[0]] + Live(c, ticks[1..])
  }

  lemma BudgetNonNegative(c: Config, since: nat)
    requires c.Accepted()
    ensures Budget(c, since) >= 0.0
  {
    if c.ramp > 0 && since < c.ramp {
      var x := since as real / c.ramp as real;
      assert x >= 0.0;
      assert c.rate as real * x >= 0.0;
    }
  }

  /** The i-th job: agents in turn, signals by sequence number. */
  function NthJob(c: Config, i: nat): Job
    requires c.agents > 0
  {
    Job(i % c.agents, PickSignal(c, i + 1), i + 1)
  }

  function Jobs(c: Config, n: nat): seq<Job>
    requires c.agents > 0
  {
    seq(n, i requires 0 <= i => NthJob(c, i))
  }

  /** Whether the context is cancelled once so many jobs got through. */
  predicate CutAt(limit: Option<nat>, sent: nat) { limit.Some? && limit.value == sent }

  /** The inner loop: release n jobs, unless the context is cancelled in between. */
  method Release(c: Config, jobs: seq<Job>, n: nat, limit: Option<nat>) returns (jobs': seq<Job>, cut: bool)
    requires c.Accepted() && jobs == Jobs(c, |jobs|) && (limit.Some? ==> |jobs| <= limit.value)
    ensures jobs' == Jobs(c, |jobs'|) && (limit.Some? ==> |jobs'| <= limit.value)
    ensures if cut then CutAt(limit, |jobs'|) && |jobs'| < |jobs| + n else |jobs'| == |jobs| + n
  {
    jobs', cut := jobs, false;
    var seqNo, agentIdx := |jobs|, |jobs|;
    for i := 0 to n
      invariant seqNo == agentIdx == |jobs'| == |jobs| + i && jobs' == Jobs(c, |jobs'|)
      invariant limit.Some? ==> |jobs'| <= limit.value
    {
      seqNo := seqNo + 1;
      var j := Job(agentIdx % c.agents, PickSignal(c, seqNo), seqNo);
      agentIdx := agentIdx + 1;
      if CutAt(limit, |jobs'|) { return jobs', true; }
      jobs' := jobs' + [j];
    }
  }

  /** dispatch, over the times of its ticks since the start. `limit` is the number of jobs that get
      through before the context is cancelled, if it is.

      No drift: unless it was cancelled, the number of jobs is the floor of the summed budget, which
      the last section puts in closed form; no run sends more than the full rate would. */
  method Dispatch(c: Config, ticks: seq<nat>, limit: Option<nat>) returns (jobs: seq<Job>, acc: real, cut: bool)
    requires c.Accepted()
    ensures jobs == Jobs(c, |jobs|) && DealtInTurn(c, jobs)
    ensures !cut ==> RightAmount(c, ticks, |jobs|)
    ensures 10 * |jobs| <= c.rate * |ticks|
    ensures !cut ==> 0.0 <= acc < 1.0 && acc + |jobs| as real == Total(c, Live(c, ticks))
    ensures !cut ==> |jobs| == Total(c, Live(c, ticks)).Floor
    ensures cut ==> CutAt(limit, |jobs|) && |jobs| < Total(c, Live(c, ticks)).Floor
  {
    acc, jobs, cut := 0.0, [], false;
    for k := 0 to |ticks|
      invariant 0.0 <= acc < 1.0 && acc + |jobs| as real == Total(c, ticks[..k])
      invariant jobs == Jobs(c, |jobs|) && (limit.Some? ==> |jobs| <= limit.value)
      invariant Live(c, ticks) == ticks[..k] + Live(c, ticks[k..])
    {
      var since := ticks[k];
      LiveStep(c, ticks, k);
      if c.duration > 0 && since > c.duration {
        OwedInClosedForm(c, ticks, jobs);
        return;
      }
      BudgetNonNegative(c, since);
      var due := acc + Budget(c, since);
      var n := due.Floor;
      acc := due - n as real;
      ghost var before := |jobs|;
      jobs, cut := Release(c, jobs, n, limit);
      if cut {
        CutShort(c, ticks, k + 1, |jobs|, before + n, acc);
        AtMostFullRate(c, ticks, |jobs|);
        JobsInTurn(c, jobs);
        return;
      }
    }
    TakeAll(ticks);
    assert Live(c, ticks) == ticks[..|ticks|];
    OwedInClosedForm(c, ticks, jobs);
  }

  // ---------------------------------------------------------------- what a budget comes to

  /** 100 ms, in nanoseconds */
  const TICK: nat := 100_000_000

  /** Every tick comes after the ramp and before the deadline. */
  ghost predicate Steady(c: Config, ticks: seq<nat>) {
    forall t :: t in ticks ==> (c.ramp > 0 ==> t >= c.ramp) && (c.duration > 0 ==> t <= c.duration)
  }

  /** Evenly spaced ticks on the ramp, before the deadline. */
  ghost predicate OnRamp(c: Config, ticks: seq<nat>) {
    c.ramp > 0 && forall k :: 0 <= k < |ticks| ==>
      ticks[k] == ticks[0] + k * TICK < c.ramp && (c.duration > 0 ==> ticks[k] <= c.duration)
  }

  /** Twice the sum of evenly spaced ticks. */
  function Climb(ticks: seq<nat>): nat {
    if ticks == [] then 0 else |ticks| * (2 * ticks[0] + (|ticks| - 1) * TICK)
  }

  lemma {:induction false} SteadyTotal(c: Config, ticks: seq<nat>)
    requires Steady(c, ticks)
    ensures Total(c, ticks) == (c.rate * |ticks|) as real / 10.0
  {
    if ticks != [] {
      var n := |ticks| - 1;
      assert forall t :: t in ticks[..n] ==> t in ticks;
      SteadyTotal(c, ticks[..n]);
      assert ticks[n] in ticks;
      assert Budget(c, ticks[n]) == c.rate as real / 10.0;
      assert c.rate * (n + 1) == c.rate * n + c.rate;
    }
  }

  /** The budget of a tick on the ramp. */
  lemma RampBudget(c: Config, since: nat)
    requires since < c.ramp
    ensures Budget(c, since) == Ratio(c.rate * since, 10 * c.ramp)
  {
    var r, s, m := c.rate as real, since as real, c.ramp as real;
    assert (r * (s / m)) * 0.1 == (r * s) / (10.0 * m) by { Regrouped(r, s, m); }
    assert (c.rate * since) as real == r * s && (10 * c.ramp) as real == 10.0 * m;
  }

  lemma Regrouped(r: real, s: real, m: real)
    requires m > 0.0
    ensures (r * (s / m)) * 0.1 == (r * s) / (10.0 * m)
  {
    var q := s / m;
    assert s == q * m;
    assert r * s == (r * q) * m;
    assert ((r * q) * 0.1) * (10.0 * m) == (r * q) * m;
  }

  function Ratio(a: int, b: int): real
    requires b > 0
  {
    a as real / b as real
  }

  lemma RatioDoubled(a: int, b: int)
    requires b > 0
    ensures Ratio(a, b) == Ratio(2 * a, 2 * b)
  {
    var x := Ratio(a, b);
    assert x * (b as real) == a as real;
    assert x * ((2 * b) as real) == (2 * a) as real;
  }

  lemma RatioSum(a: int, b: int, d: int)
    requires d > 0
    ensures Ratio(a, d) + Ratio(b, d) == Ratio(a + b, d)
  {
  }

  lemma RatioFloor(a: int, b: int)
    requires b > 0
    ensures Ratio(a, b).Floor == a / b
  {
    var q, x := a / b, Ratio(a, b);
    assert a == q * b + a % b;
    assert x * (b as real) == a as real;
    assert (q * b) as real == q as real * b as real && (q * b + b) as real == (q + 1) as real * b as real;
    Sandwich(x, q as real, (q + 1) as real, b as real);
  }

  lemma Sandwich(x: real, lo: real, hi: real, d: real)
    requires d > 0.0 && lo * d <= x * d < hi * d
    ensures lo <= x < hi
  {
    if x < lo { ScaledLess(x, lo, d); }
    if x > hi { ScaledLess(hi, x, d); }
  }

  lemma ScaledLess(a: real, b: real, d: real)
    requires a < b && d > 0.0
    ensures a * d < b * d
  {
  }

  /** One more tick on the ramp, over the common denominator. */
  lemma RatioStep(rate: int, climb: int, t: int, m: int)
    requires m > 0
    ensures Ratio(rate * climb, 20 * m) + Ratio(rate * t, 10 * m) == Ratio(rate * (climb + 2 * t), 20 * m)
  {
    RatioDoubled(rate * t, 10 * m);
    assert 2 * (rate * t) == rate * (2 * t) && 2 * (10 * m) == 20 * m;
    RatioSum(rate * climb, rate * (2 * t), 20 * m);
    assert rate * climb + rate * (2 * t) == rate * (climb + 2 * t);
  }

  lemma {:induction false} RampTotal(c: Config, ticks: seq<nat>)
    requires OnRamp(c, ticks)
    ensures Total(c, ticks) == Ratio(c.rate * Climb(ticks), 20 * c.ramp)
  {
    if ticks == [] {
      assert c.rate * 0 == 0;
    } else {
      var n := |ticks| - 1;
      var init, t := ticks[..n], ticks[n];
      assert forall k :: 0 <= k < n ==> init[k] == ticks[k];
      RampTotal(c, init);
      RampBudget(c, t);
      ClimbSnoc(ticks);
      RatioStep(c.rate, Climb(init), t, c.ramp);
    }
  }

  lemma ClimbSnoc(ticks: seq<nat>)
    requires ticks != [] && ticks[|ticks| - 1] == ticks[0] + (|ticks| - 1) * TICK
    ensures Climb(ticks) == Climb(ticks[..|ticks| - 1]) + 2 * ticks[|ticks| - 1]
  {
    var n, a := |ticks| - 1, ticks[0];
    if n == 0 {
      assert ticks[..0] == [];
    } else {
      assert ticks[..n][0] == a && |ticks[..n]| == n;
      ClimbArithmetic(n, a);
    }
  }

  lemma ClimbArithmetic(n: nat, a: nat)
    ensures (n + 1) * (2 * a + n * TICK) == n * (2 * a + (n - 1) * TICK) + 2 * (a + n * TICK)
  {
    var x := 2 * a + (n - 1) * TICK;
    assert 2 * a + n * TICK == x + TICK;
    assert (n + 1) * (x + TICK) == n * x + n * TICK + x + TICK;
  }

  lemma {:induction false} NoneExpired(c: Config, ticks: seq<nat>)
    requires forall t :: t in ticks ==> !Expired(c, t)
    ensures Live(c, ticks) == ticks
  {
    if ticks != [] { NoneExpired(c, ticks[1..]); }
  }

  /** Ticks from the first one past the deadline on do not count. */
  lemma {:induction false} DeadlineEnds(c: Config, before: seq<nat>, t: nat, after: seq<nat>)
    requires c.duration > 0 && t > c.duration && forall u :: u in before ==> u <= c.duration
    ensures Live(c, before + [t] + after) == before
  {
    var ticks := before + [t] + after;
    if before == [] {
      assert ticks[0] == t;
    } else {
      assert before[0] in before && forall u :: u in before[1..] ==> u in before;
      assert ticks[0] == before[0] && ticks[1..] == before[1..] + [t] + after;
      DeadlineEnds(c, before[1..], t, after);
    }
  }

  lemma {:induction false} LiveIsNoLonger(c: Config, ticks: seq<nat>)
    ensures |Live(c, ticks)| <= |ticks|
  {
    if ticks != [] && !Expired(c, ticks[0]) { LiveIsNoLonger(c, ticks[1..]); }
  }

  lemma BudgetAtMost(c: Config, since: nat)
    requires c.Accepted()
    ensures Budget(c, since) <= c.rate as real / 10.0
  {
    if c.ramp > 0 && since < c.ramp {
      var x := since as real / c.ramp as real;
      assert x * (c.ramp as real) == since as real;
      assert x <= 1.0;
      assert c.rate as real * x <= c.rate as real;
    }
  }

  lemma {:induction false} TotalAtMost(c: Config, ticks: seq<nat>)
    requires c.Accepted()
    ensures Total(c, ticks) <= (c.rate * |ticks|) as real / 10.0
  {
    if ticks != [] {
      var n := |ticks| - 1;
      TotalAtMost(c, ticks[..n]);
      BudgetAtMost(c, ticks[n]);
      assert c.rate * (n + 1) == c.rate * n + c.rate;
    }
  }

  lemma AtMostFullRate(c: Config, ticks: seq<nat>, sent: nat)
    requires c.Accepted() && sent <= Total(c, Live(c, ticks)).Floor
    ensures 10 * sent <= c.rate * |ticks|
  {
    TotalAtMost(c, Live(c, ticks));
    LiveIsNoLonger(c, ticks);
    TenthOf(Total(c, Live(c, ticks)), sent, c.rate, |Live(c, ticks)|, |ticks|);
  }

  lemma TenthOf(x: real, sent: nat, rate: nat, n: nat, more: nat)
    requires x <= (rate * n) as real / 10.0 && sent <= x.Floor && n <= more
    ensures 10 * sent <= rate * more
  {
    assert sent as real <= x;
    assert rate * more == rate * n + rate * (more - n);
  }

  lemma TenthFloor(x: real, a: int)
    requires x == a as real / 10.0
    ensures x.Floor == a / 10
  {
  }

  /** At the full rate a tenth of it per tick; on the ramp, evenly spaced ticks send the closed form of
      the linear climb, rounded down once. */
  ghost predicate RightAmount(c: Config, ticks: seq<nat>, sent: nat) {
    && (Steady(c, ticks) ==> sent == c.rate * |ticks| / 10)
    && (OnRamp(c, ticks) ==> sent == c.rate * Climb(ticks) / (20 * c.ramp))
  }

  /** Agents take turns, and sequence numbers count from 1. */
  ghost predicate DealtInTurn(c: Config, jobs: seq<Job>)
    requires c.agents > 0
  {
    forall i :: 0 <= i < |jobs| ==> jobs[i] == Job(i % c.agents, PickSignal(c, i + 1), i + 1)
  }

  lemma JobsInTurn(c: Config, jobs: seq<Job>)
    requires c.agents > 0 && jobs == Jobs(c, |jobs|)
    ensures DealtInTurn(c, jobs)
  {
  }

  lemma OwedInClosedForm(c: Config, ticks: seq<nat>, jobs: seq<Job>)
    requires c.Accepted() && jobs == Jobs(c, |jobs|) && |jobs| == Total(c, Live(c, ticks)).Floor
    ensures RightAmount(c, ticks, |jobs|) && DealtInTurn(c, jobs) && 10 * |jobs| <= c.rate * |ticks|
  {
    AtMostFullRate(c, ticks, |jobs|);
    JobsInTurn(c, jobs);
    if Steady(c, ticks) {
      NoneExpired(c, ticks);
      SteadyTotal(c, ticks);
      TenthFloor(Total(c, ticks), c.rate * |ticks|);
    }
    if OnRamp(c, ticks) {
      NoneExpired(c, ticks);
      RampTotal(c, ticks);
      RatioFloor(c.rate * Climb(ticks), 20 * c.ramp);
    }
  }

  // ---------------------------------------------------------------- counting ticks

  lemma TakeAll(ticks: seq<nat>)
    ensures ticks[..|ticks|] == ticks && ticks[|ticks|..] == []
  {
  }

  /** One more tick is counted, or the deadline ends the list. */
  lemma LiveStep(c: Config, ticks: seq<nat>, k: nat)
    requires k < |ticks| && Live(c, ticks) == ticks[..k] + Live(c, ticks[k..])
    ensures Expired(c, ticks[k]) ==> Live(c, ticks) == ticks[..k]
    ensures !Expired(c, ticks[k]) ==> Live(c, ticks) == ticks[..k + 1] + Live(c, ticks[k + 1..])
    ensures Total(c, ticks[..k + 1]) == Total(c, ticks[..k]) + Budget(c, ticks[k])
  {
    TakeSnoc(ticks, k);
    assert ticks[k..][0] == ticks[k] && ticks[k..][1..] == ticks[k + 1..];
    Reassoc(ticks[..k], [ticks[k]], Live(c, ticks[k + 1..]));
    assert ticks[..k + 1][..k] == ticks[..k];
  }

  /** Cut short, fewer jobs were sent than the budget owes in the end. */
  lemma CutShort(c: Config, ticks: seq<nat>, k: nat, sent: nat, owed: nat, rest: real)
    requires c.Accepted() && k <= |ticks|
    requires Live(c, ticks) == ticks[..k] + Live(c, ticks[k..])
    requires owed as real + rest == Total(c, ticks[..k]) && 0.0 <= rest && sent < owed
    ensures sent < Total(c, Live(c, ticks)).Floor
  {
    TotalGrows(c, ticks[..k], Live(c, ticks[k..]));
    assert Total(c, Live(c, ticks)) >= owed as real;
  }

  lemma {:induction false} TotalGrows(c: Config, a: seq<nat>, b: seq<nat>)
    requires c.Accepted()
    ensures Total(c, a + b) >= Total(c, a)
  {
    if b == [] {
      assert a + b == a;
    } else {
      assert (a + b)[..|a + b| - 1] == a + b[..|b| - 1];
      TotalGrows(c, a, b[..|b| - 1]);
      BudgetNonNegative(c, b[|b| - 1]);
    }
  }

  // ---------------------------------------------------------------- fairness among agents

  /** How many of the first n jobs go to one agent. */
  function Sent(c: Config, n: nat, agent: int): nat
    requires c.agents > 0
  {
    if n == 0 then 0 else Sent(c, n - 1, agent) + (if NthJob(c, n - 1).agent == agent then 1 else 0)
  }

  lemma {:induction false} SentIs(c: Config, n: nat, agent: nat)
    requires 0 <= agent < c.agents
    ensures Sent(c, n, agent) == n / c.agents + (if agent < n % c.agents then 1 else 0)
  {
    if n > 0 {
      SentIs(c, n - 1, agent);
      NextTurn(n - 1, c.agents);
    } else {
      NoTurns(c.agents);
    }
  }

  lemma NoTurns(d: int)
    requires d > 0
    ensures 0 / d == 0 && 0 % d == 0
  {
  }

  lemma NextTurn(n: nat, d: int)
    requires d > 0
    ensures if n % d == d - 1 then (n + 1) / d == n / d + 1 && (n + 1) % d == 0
            else (n + 1) / d == n / d && (n + 1) % d == n % d + 1
  {
    var q, r := n / d, n % d;
    assert n == q * d + r;
    if r == d - 1 {
      assert n + 1 == (q + 1) * d;
      Quotient(n + 1, d, q + 1, 0);
    } else {
      Quotient(n + 1, d, q, r + 1);
    }
  }

  lemma Quotient(n: nat, d: int, q: int, r: int)
    requires d > 0 && 0 <= r < d && n == q * d + r
    ensures n / d == q && n % d == r
  {
    var q', r' := n / d, n % d;
    assert n == q' * d + r' && 0 <= r' < d;
    assert (q' - q) * d == r - r' by { Spread(q', q, d); }
    SmallMultiple(q' - q, d);
  }

  lemma Spread(a: int, b: int, d: int)
    ensures (a - b) * d == a * d - b * d
  {
  }

  lemma SmallMultiple(k: int, d: int)
    requires d > 0 && -d < k * d < d
    ensures k == 0
  {
    if k >= 1 {
      AtLeastOnce(k, d);
    } else if k <= -1 {
      AtLeastOnce(-k, d);
    }
  }

  lemma AtLeastOnce(k: int, d: int)
    requires k >= 1 && d > 0
    ensures k * d >= d && (-k) * d <= -d
  {
    assert (k - 1) * d >= 0;
  }

  /** After any number of jobs no agent is more than one job ahead of another. */
  lemma AgentsStayEven(c: Config, n: nat, a: nat, b: nat)
    requires a < c.agents && b < c.agents
    ensures -1 <= Sent(c, n, a) - Sent(c, n, b) <= 1
  {
    SentIs(c, n, a);
    SentIs(c, n, b);
  }

  // ---------------------------------------------------------------- the mix flag

  /** strings.Split on one character. */
  function SplitOn(s: string, c: char): (parts: seq<string>)
  {
    var k := IndexOf(s, c, 0, |s|);
    if k < 0 then [s] else [s[..k]] + SplitOn(s[k + 1..], c)
  }

  datatype Mix = Mix(metrics: int, logs: int, traces: int) | Bad

  function SetShare(m: Mix, name: string, pct: int): Mix
    requires m.Mix?
  {
    if name == "metrics" then m.(metrics := pct)
    else if name == "logs" then m.(logs := pct)
    else if name == "traces" then m.(traces := pct)
    else Bad
  }

  /** What one segment does to the mix read so far; a later segment for a signal replaces an earlier
      one. `atoi` is strconv.Atoi. */
  function Segment(atoi: string -> Option<int>, m: Mix, raw: string): Mix
    requires m.Mix?
  {
    var part := TrimSpace(raw);
    var k := IndexOf(part, ':', 0, |part|);
    if part == "" then m
    else if k < 0 then Bad
    else
      var pct := atoi(TrimSpace(part[k + 1..]));
      if pct.None? || pct.value < 0 then Bad else SetShare(m, TrimSpace(part[..k]), pct.value)
  }

  function Segments(atoi: string -> Option<int>, m: Mix, parts: seq<string>): Mix
    requires m.Mix?
    decreases |parts|
  {
    if parts == [] then m
    else
      var m' := Segment(atoi, m, parts[0]);
      if m'.Bad? then Bad else Segments(atoi, m', parts[1..])
  }

  predicate NonNegative(m: Mix) { m.Mix? ==> m.metrics >= 0 && m.logs >= 0 && m.traces >= 0 }

  /** The body of the loop in parseMix. */
  method ReadSegment(atoi: string -> Option<int>, m: Mix, raw: string) returns (m': Mix)
    requires m.Mix? && NonNegative(m)
    ensures m' == Segment(atoi, m, raw) && NonNegative(m')
  {
    var part := TrimSpace(raw);
    if part == "" { return m; }
    var k := IndexOf(part, ':', 0, |part|);
    if k < 0 { return Bad; }
    var pct := atoi(TrimSpace(part[k + 1..]));
    if pct.None? || pct.value < 0 { return Bad; }
    m' := SetShare(m, TrimSpace(part[..k]), pct.value);
  }

  /** What the flag denotes: the shares after the last segment when they add up to 100. */
  function MixOf(atoi: string -> Option<int>, s: string): Mix {
    var read := Segments(atoi, Mix(0, 0, 0), SplitOn(s, ','));
    if read.Mix? && read.metrics + read.logs + read.traces == SLOTS then read else Bad
  }

  /** parseMix */
  method ParseMix(atoi: string -> Option<int>, s: string) returns (m: Mix)
    ensures m == MixOf(atoi, s)
    ensures m.Mix? ==> m.metrics >= 0 && m.logs >= 0 && m.traces >= 0 && m.metrics + m.logs + m.traces == SLOTS
  {
    var parts := SplitOn(s, ',');
    m := Mix(0, 0, 0);
    for i := 0 to |parts|
      invariant m.Mix? && NonNegative(m)
      invariant Segments(atoi, m, parts[i..]) == Segments(atoi, Mix(0, 0, 0), parts)
    {
      assert parts[i..][0] == parts[i] && parts[i..][1..] == parts[i + 1..];
      m := ReadSegment(atoi, m, parts[i]);
      if m.Bad? { return; }
    }
    assert Segments(atoi, m, parts[|parts|..]) == m;
    if m.metrics + m.logs + m.traces != SLOTS { return Bad; }
  }

  // ---------------------------------------------------------------- writing a mix

  /** A segment of a written mix: only white space, or a share for a signal, with white space around
      the name and the number. */
  datatype Written =
    | Gap(space: string)
    | Given(signal: Signal, pct: nat, number: string, before: string, afterName: string, afterColon: string,
            after: string)

  function Name(signal: Signal): string {
    match signal
    case Metrics => "metrics"
    case Logs => "logs"
    case Traces => "traces"
  }

  function Text(w: Written): string {
    match w
    case Gap(space) => space
    case Given(signal, _, number, a, b, c, d) => a + (Name(signal) + b + (":" + (c + number))) + d
  }

  /** The number reads as the share and the rest is white space. */
  predicate WellWritten(atoi: string -> Option<int>, w: Written) {
    match w
    case Gap(space) => AllSpace(space)
    case Given(_, pct, number, a, b, c, d) =>
      && AllSpace(a) && AllSpace(b) && AllSpace(c) && AllSpace(d)
      && number != "" && Trimmed(number) && ',' !in number && atoi(number) == Some(pct)
  }

  function Texts(ws: seq<Written>): seq<string> { seq(|ws|, i requires 0 <= i < |ws| => Text(ws[i])) }

  /** The share given last for the signal, or another value when none is given. */
  function LastShare(ws: seq<Written>, signal: Signal, otherwise: int): int {
    if ws == [] then otherwise
    else
      var w := ws[|ws| - 1];
      if w.Given? && w.signal == signal then w.pct else LastShare(ws[..|ws| - 1], signal, otherwise)
  }

  lemma {:induction false} LastShareFront(ws: seq<Written>, signal: Signal, otherwise: int)
    requires ws != []
    ensures LastShare(ws, signal, otherwise) ==
            LastShare(ws[1..], signal, if ws[0].Given? && ws[0].signal == signal then ws[0].pct else otherwise)
  {
    var n := |ws| - 1;
    if n > 0 {
      assert ws[1..][..n - 1] == ws[..n][1..] && ws[1..][n - 1] == ws[n];
      LastShareFront(ws[..n], signal, otherwise);
    }
  }

  lemma TrimBlank(s: string)
    requires AllSpace(s)
    ensures TrimSpace(s) == ""
  {
    SkipSpaceAt(s, 0, |s|, |s|);
  }

  lemma NameIsPlain(signal: Signal)
    ensures Name(signal) != "" && Trimmed(Name(signal)) && ',' !in Name(signal) && ':' !in Name(signal)
  {
  }

  /** A name, white space, a colon, white space and a number, cut at the colon. */
  lemma CutAtColon(name: string, b: string, c: string, number: string, part: string)
    requires part == name + b + (":" + (c + number))
    requires ':' !in name && AllSpace(b) && name != "" && Trimmed(name) && number != "" && Trimmed(number)
    ensures part != "" && Trimmed(part)
    ensures IndexOf(part, ':', 0, |part|) == |name| + |b|
    ensures part[..|name| + |b|] == name + b && part[|name| + |b| + 1..] == c + number
  {
    var k := |name| + |b|;
    assert part[0] == name[0] && part[|part| - 1] == number[|number| - 1];
    forall i | 0 <= i < k ensures part[i] != ':' {
      assert part[i] == if i < |name| then name[i] else b[i - |name|];
    }
    IndexOfAt(part, ':', 0, |part|, k);
  }

  /** What a segment does. */
  function Give(m: Mix, w: Written): Mix
    requires m.Mix?
  {
    match w
    case Gap(_) => m
    case Given(Metrics, pct, _, _, _, _, _) => m.(metrics := pct)
    case Given(Logs, pct, _, _, _, _, _) => m.(logs := pct)
    case Given(Traces, pct, _, _, _, _, _) => m.(traces := pct)
  }

  lemma SegmentRead(atoi: string -> Option<int>, m: Mix, w: Written)
    requires m.Mix? && WellWritten(atoi, w)
    ensures Segment(atoi, m, Text(w)) == Give(m, w)
  {
    match w
    case Gap(space) => TrimBlank(space);
    case Given(signal, pct, number, a, b, c, d) =>
      NameIsPlain(signal);
      PartRead(atoi, m, Name(signal), number, pct, a, b, c, d);
      assert SetShare(m, Name(signal), pct) == Give(m, w);
  }

  /** A segment by its pieces. */
  lemma SegmentIs(atoi: string -> Option<int>, m: Mix, raw: string, part: string, k: nat, left: string, right: string,
                  pct: nat)
    requires m.Mix? && TrimSpace(raw) == part && k < |part| && IndexOf(part, ':', 0, |part|) == k
    requires part[..k] == left && part[k + 1..] == right && atoi(TrimSpace(right)) == Some(pct)
    ensures Segment(atoi, m, raw) == SetShare(m, TrimSpace(left), pct)
  {
  }

  lemma PartRead(atoi: string -> Option<int>, m: Mix, name: string, number: string, pct: nat,
                 a: string, b: string, c: string, d: string)
    requires m.Mix? && AllSpace(a) && AllSpace(b) && AllSpace(c) && AllSpace(d)
    requires ':' !in name && name != "" && Trimmed(name)
    requires number != "" && Trimmed(number) && atoi(number) == Some(pct)
    ensures Segment(atoi, m, a + (name + b + (":" + (c + number))) + d) == SetShare(m, name, pct)
  {
    TrimAfter(name, b);
    TrimBefore(c, number);
    var part := name + b + (":" + (c + number));
    CutAtColon(name, b, c, number, part);
    PaddedPart(atoi, m, a, part, d, |name| + |b|, name + b, c + number, pct);
  }

  lemma PaddedPart(atoi: string -> Option<int>, m: Mix, a: string, part: string, d: string, k: nat,
                   left: string, right: string, pct: nat)
    requires m.Mix? && AllSpace(a) && AllSpace(d) && part != "" && Trimmed(part)
    requires k < |part| && IndexOf(part, ':', 0, |part|) == k
    requires part[..k] == left && part[k + 1..] == right && atoi(TrimSpace(right)) == Some(pct)
    ensures Segment(atoi, m, a + part + d) == SetShare(m, TrimSpace(left), pct)
  {
    TrimAround(a, part, d);
    SegmentIs(atoi, m, a + part + d, part, k, left, right, pct);
  }

  lemma TrimAfter(s: string, trail: string)
    requires AllSpace(trail) && s != "" && Trimmed(s)
    ensures TrimSpace(s + trail) == s
  {
    TrimAround("", s, trail);
    assert "" + s + trail == s + trail;
  }

  lemma TrimBefore(lead: string, s: string)
    requires AllSpace(lead) && s != "" && Trimmed(s)
    ensures TrimSpace(lead + s) == s
  {
    TrimAround(lead, s, "");
    assert lead + s + "" == lead + s;
  }

  /** The last share of each signal, on top of what was there before. */
  function LastShares(ws: seq<Written>, m: Mix): (r: Mix)
    requires m.Mix?
    ensures r.Mix?
  {
    Mix(LastShare(ws, Metrics, m.metrics), LastShare(ws, Logs, m.logs), LastShare(ws, Traces, m.traces))
  }

  lemma LastSharesFront(ws: seq<Written>, m: Mix)
    requires m.Mix? && ws != []
    ensures LastShares(ws, m) == LastShares(ws[1..], Give(m, ws[0]))
  {
    LastShareFront(ws, Metrics, m.metrics);
    LastShareFront(ws, Logs, m.logs);
    LastShareFront(ws, Traces, m.traces);
  }

  lemma TextsFront(ws: seq<Written>)
    requires ws != []
    ensures Texts(ws) != [] && Texts(ws)[0] == Text(ws[0]) && Texts(ws)[1..] == Texts(ws[1..])
  {
  }

  lemma SegmentsStep(atoi: string -> Option<int>, m: Mix, parts: seq<string>, next: Mix)
    requires m.Mix? && parts != [] && next.Mix? && Segment(atoi, m, parts[0]) == next
    ensures Segments(atoi, m, parts) == Segments(atoi, next, parts[1..])
  {
  }

  lemma {:induction false} SegmentsRead(atoi: string -> Option<int>, m: Mix, ws: seq<Written>)
    requires m.Mix? && forall w :: w in ws ==> WellWritten(atoi, w)
    ensures Segments(atoi, m, Texts(ws)) == LastShares(ws, m)
    decreases ws
  {
    if ws != [] {
      var next := Give(m, ws[0]);
      SegmentRead(atoi, m, ws[0]);
      TextsFront(ws);
      SegmentsStep(atoi, m, Texts(ws), next);
      SegmentsRead(atoi, next, ws[1..]);
      LastSharesFront(ws, m);
    }
  }

  lemma NoComma(atoi: string -> Option<int>, w: Written)
    requires WellWritten(atoi, w)
    ensures ',' !in Text(w)
  {
    if w.Given? { NameIsPlain(w.signal); }
  }

  lemma SplitOnce(t: string, c: char, rest: string)
    requires c !in t
    ensures SplitOn(t, c) == [t] && SplitOn(t + [c] + rest, c) == [t] + SplitOn(rest, c)
  {
    var s := t + [c] + rest;
    IndexOfIs(t, c, 0, |t|);
    forall i | 0 <= i < |t| ensures s[i] != c { assert s[i] == t[i] && t[i] in t; }
    assert s[|t|] == c && s[..|t|] == t && s[|t| + 1..] == rest;
    IndexOfAt(s, c, 0, |s|, |t|);
  }

  lemma {:induction false} SplitJoined(ts: seq<string>, c: char, sep: string)
    requires ts != [] && sep == [c] && forall t :: t in ts ==> c !in t
    ensures SplitOn(Join(ts, sep), c) == ts
    decreases ts
  {
    assert ts[0] in ts;
    if |ts| == 1 {
      SplitOnce(ts[0], c, "");
    } else {
      SplitOnce(ts[0], c, Join(ts[1..], sep));
      SplitJoined(ts[1..], c, sep);
    }
  }

  /** The flag does not depend on how it is written: any list of segments, in any order, with blank
      ones, repeats and white space, denotes the last share of each signal if and only if they add up
      to 100; a signal that is left out has share 0. */
  lemma MixReadBack(atoi: string -> Option<int>, ws: seq<Written>)
    requires forall w :: w in ws ==> WellWritten(atoi, w)
    ensures var metrics, logs, traces := LastShare(ws, Metrics, 0), LastShare(ws, Logs, 0), LastShare(ws, Traces, 0);
            MixOf(atoi, Join(Texts(ws), ",")) ==
            if metrics + logs + traces == SLOTS then Mix(metrics, logs, traces) else Bad
  {
    var ts := Texts(ws);
    if ws == [] {
      EmptyMix(atoi);
    } else {
      forall t | t in ts ensures ',' !in t {
        var i :| 0 <= i < |ws| && t == Text(ws[i]);
        NoComma(atoi, ws[i]);
      }
      SplitJoined(ts, ',', ",");
      SegmentsRead(atoi, Mix(0, 0, 0), ws);
    }
  }

  lemma EmptyMix(atoi: string -> Option<int>)
    ensures MixOf(atoi, "") == Bad
  {
    assert SplitOn("", ',') == [""];
    TrimBlank("");
    assert Segments(atoi, Mix(0, 0, 0), [""]) == Mix(0, 0, 0);
  }

  /** A written list of segments for the flag, and the mix it gives. */
  ghost predicate Denotes(atoi: string -> Option<int>, ws: seq<Written>, s: string, m: Mix)
    requires m.Mix?
  {
    && (forall w :: w in ws ==> WellWritten(atoi, w)) && Join(Texts(ws), ",") == s
    && m == LastShares(ws, Mix(0, 0, 0)) && m.metrics + m.logs + m.traces == 100
  }

  /** The flag is accepted if and only if it is such a list: a segment without a colon, an unknown
      signal, a negative share or one that is no number are all refused. */
  lemma AcceptsExactly(atoi: string -> Option<int>, s: string, m: Mix)
    requires m.Mix? && atoi("").None?
    ensures MixOf(atoi, s) == m <==> exists ws :: Denotes(atoi, ws, s, m)
  {
    if MixOf(atoi, s) == m {
      var parts := SplitOn(s, ',');
      JoinOfSplit(s, ',', ",");
      var ws := SegmentsWritten(atoi, Mix(0, 0, 0), parts);
      SegmentsRead(atoi, Mix(0, 0, 0), ws);
      assert Denotes(atoi, ws, s, m);
    }
    forall ws | Denotes(atoi, ws, s, m) ensures MixOf(atoi, s) == m { MixReadBack(atoi, ws); }
  }

  lemma {:induction false} JoinOfSplit(s: string, c: char, sep: string)
    requires sep == [c]
    ensures CutFrom(SplitOn(s, c), s, c, sep)
    decreases |s|
  {
    if c in s {
      var t, rest := FirstPart(s, c, sep);
      JoinOfSplit(rest, c, sep);
      SplitOnce(t, c, rest);
      CutOnce(t, SplitOn(rest, c), rest, c, sep);
    } else {
      SplitOnce(s, c, "");
    }
  }

  lemma FirstPart(s: string, c: char, sep: string) returns (t: string, rest: string)
    requires c in s && sep == [c]
    ensures c !in t && s == t + [c] + rest == t + sep + rest
  {
    var k := IndexOf(s, c, 0, |s|);
    IndexOfIs(s, c, 0, |s|);
    t, rest := s[..k], s[k + 1..];
  }

  /** The parts of a text between its separators. */
  predicate CutFrom(parts: seq<string>, s: string, c: char, sep: string) {
    parts != [] && Join(parts, sep) == s && forall t :: t in parts ==> c !in t
  }

  lemma CutOnce(t: string, rest: seq<string>, s: string, c: char, sep: string)
    requires CutFrom(rest, s, c, sep) && c !in t
    ensures CutFrom([t] + rest, t + sep + s, c, sep)
  {
    assert ([t] + rest)[1..] == rest;
  }

  lemma {:induction false} SegmentsWritten(atoi: string -> Option<int>, m: Mix, parts: seq<string>)
    returns (ws: seq<Written>)
    requires m.Mix? && Segments(atoi, m, parts).Mix? && atoi("").None? && forall p :: p in parts ==> ',' !in p
    ensures Texts(ws) == parts && forall w :: w in ws ==> WellWritten(atoi, w)
    decreases |parts|
  {
    if parts == [] { return []; }
    var w := SegmentWritten(atoi, m, parts[0]);
    var rest := SegmentsWritten(atoi, Segment(atoi, m, parts[0]), parts[1..]);
    ws := [w] + rest;
    assert ws[1..] == rest && parts == [parts[0]] + parts[1..];
    TextsFront(ws);
  }

  /** A segment that is accepted is well written. */
  lemma SegmentWritten(atoi: string -> Option<int>, m: Mix, raw: string) returns (w: Written)
    requires m.Mix? && Segment(atoi, m, raw).Mix? && atoi("").None? && ',' !in raw
    ensures WellWritten(atoi, w) && Text(w) == raw
  {
    var part := TrimSpace(raw);
    var a, d := SpaceAround(raw, part);
    if part == "" { return Gap(raw); }
    var left, right, pct := SegmentParts(atoi, m, raw, part);
    var name, number := TrimSpace(left), TrimSpace(right);
    var a', b := SpaceAround(left, name);
    var c, d' := SpaceAround(right, number);
    TrimIsTrimmed(right);
    PiecesMeet(raw, part, left, right, name, number, a, d, a', b, c, d');
    w := ShareWritten(atoi, m, name, number, pct, a + a', b, c, d' + d);
  }

  /** What an accepted segment has on both sides of its colon. */
  lemma SegmentParts(atoi: string -> Option<int>, m: Mix, raw: string, part: string)
    returns (left: string, right: string, pct: nat)
    requires m.Mix? && Segment(atoi, m, raw).Mix? && part == TrimSpace(raw) != ""
    ensures part == left + ":" + right && atoi(TrimSpace(right)) == Some(pct)
    ensures SetShare(m, TrimSpace(left), pct).Mix?
  {
    var k := IndexOf(part, ':', 0, |part|);
    IndexOfIs(part, ':', 0, |part|);
    left, right := part[..k], part[k + 1..];
    pct := atoi(TrimSpace(right)).value;
  }

  lemma ShareWritten(atoi: string -> Option<int>, m: Mix, name: string, number: string, pct: nat,
                     a: string, b: string, c: string, d: string) returns (w: Written)
    requires m.Mix? && SetShare(m, name, pct).Mix? && atoi("").None? && atoi(number) == Some(pct)
    requires Trimmed(number) && ',' !in number && AllSpace(a) && AllSpace(b) && AllSpace(c) && AllSpace(d)
    ensures WellWritten(atoi, w) && Text(w) == a + (name + b + (":" + (c + number))) + d
  {
    var signal := if name == "metrics" then Metrics else if name == "logs" then Logs else Traces;
    w := Given(signal, pct, number, a, b, c, d);
  }

  lemma PiecesMeet(raw: string, part: string, left: string, right: string, name: string, number: string,
                   a: string, d: string, a': string, b: string, c: string, d': string)
    requires raw == a + part + d && part == left + ":" + right && ',' !in raw
    requires left == a' + name + b && right == c + number + d'
    ensures raw == (a + a') + (name + b + (":" + (c + number))) + (d' + d) && ',' !in number
  {
  }

  /** The white space that trimming takes away. */
  lemma SpaceAround(s: string, t: string) returns (lead: string, trail: string)
    requires t == TrimSpace(s)
    ensures AllSpace(lead) && AllSpace(trail) && s == lead + t + trail
  {
    TrimBoundsTrimmed(s, 0, |s|);
    var (a, b) := TrimBounds(s, 0, |s|);
    lead, trail := s[..a], s[b..];
  }

  /** Whatever mix the flag parser accepts, any 100 consecutive jobs carry exactly that mix. */
  method AcceptedMixIsDealt(atoi: string -> Option<int>, s: string, c: Config, lo: nat) returns (m: Mix)
    requires c.agents > 0 && c.rate > 0
    ensures m.Mix? ==>
              var d := c.(mixMetrics := m.metrics, mixLogs := m.logs, mixTraces := m.traces);
              && d.Accepted()
              && Dealt(d, Metrics, lo, SLOTS) == m.metrics
              && Dealt(d, Logs, lo, SLOTS) == m.logs
              && Dealt(d, Traces, lo, SLOTS) == m.traces
  {
    m := ParseMix(atoi, s);
    if m.Mix? {
      ghost var d := c.(mixMetrics := m.metrics, mixLogs := m.logs, mixTraces := m.traces);
      MixIsExact(d, Metrics, lo);
      MixIsExact(d, Logs, lo);
      MixIsExact(d, Traces, lo);
    }
  }
}
