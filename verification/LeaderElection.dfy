/** `AlwaysLeader` (extension/leaderelection/leaderelection.go) as a step protocol: any number of
    RunSingleton and Shutdown calls, interleaved at every mutex operation, with the goroutines they
    start. Any step that is enabled may be taken next. */
module LeaderElection {
  import opened Counting

  /** A RunSingleton call and the goroutine it launches: not begun; holding the mutex; returned
      because the elector is closed; counted in the wait group, still holding the mutex; goroutine
      launched; in run, with whether its context was cancelled when it began; run has returned;
      wg.Done called. */
  datatype RunPhase =
    | Idle | Locked | Refused | Added | Launched | Running(cancelledAtStart: bool) | RunReturned | Finished
  {
    predicate Holds() { Locked? || Added? }
    predicate Counted() { Added? || Launched? || Running? || RunReturned? }
    predicate Registered() { Counted() || Finished? }
    function Left(): nat {
      match this
      case Idle => 7
      case Locked => 6
      case Added => 5
      case Launched => 4
      case Running(_) => 3
      case RunReturned => 2
      case Refused => 0
      case Finished => 0
    }
  }

  /** A Shutdown call: not begun; holding the mutex; returned because another call closed the
      elector; closed set; cancelled too; waiting; its done channel closed; returned by that
      channel; returned by its own context. */
  datatype StopPhase =
    | NotCalled | Holding | Superseded | Closing | Cancelling | Waiting | Drained | DoneReturn | TimedOut
  {
    predicate Holds() { Holding? || Closing? || Cancelling? }
    predicate Won() { Closing? || Cancelling? || Waiting? || Drained? || DoneReturn? || TimedOut? }
    predicate Returned() { Superseded? || DoneReturn? || TimedOut? }
    function Left(): nat {
      match this
      case NotCalled => 6
      case Holding => 5
      case Closing => 4
      case Cancelling => 3
      case Waiting => 2
      case Drained => 1
      case Superseded => 0
      case DoneReturn => 0
      case TimedOut => 0
    }
  }

  datatype Owner = Free | RunCall(i: nat) | StopCall(j: nat)

  datatype State = State(
    runs: seq<RunPhase>, stops: seq<StopPhase>, lock: Owner, wg: int, closed: bool, cancelled: bool)

  datatype Step =
    | LockRun(i: nat) | CheckRun(i: nat) | UnlockRun(i: nat) | Start(i: nat) | ReturnRun(i: nat) | DoneRun(i: nat)
    | LockStop(j: nat) | CheckStop(j: nat) | Cancel(j: nat) | UnlockStop(j: nat)
    | Drain(j: nat) | ReturnDone(j: nat) | ReturnTimeout(j: nat)

  function Init(n: nat, m: nat): State {
    State(seq(n, _ => Idle), seq(m, _ => NotCalled), Free, 0, false, false)
  }

  predicate RunAt(s: State, i: nat, p: RunPhase) { i < |s.runs| && s.runs[i] == p }

  predicate StopAt(s: State, j: nat, p: StopPhase) { j < |s.stops| && s.stops[j] == p }

  predicate Enabled(s: State, e: Step) {
    match e
    case LockRun(i) => RunAt(s, i, Idle) && s.lock == Free
    case CheckRun(i) => RunAt(s, i, Locked)
    case UnlockRun(i) => RunAt(s, i, Added)
    case Start(i) => RunAt(s, i, Launched)
    case ReturnRun(i) => i < |s.runs| && s.runs[i].Running?
    case DoneRun(i) => RunAt(s, i, RunReturned)
    case LockStop(j) => StopAt(s, j, NotCalled) && s.lock == Free
    case CheckStop(j) => StopAt(s, j, Holding)
    case Cancel(j) => StopAt(s, j, Closing)
    case UnlockStop(j) => StopAt(s, j, Cancelling)
    case Drain(j) => StopAt(s, j, Waiting) && s.wg == 0
    case ReturnDone(j) => StopAt(s, j, Drained)
    case ReturnTimeout(j) => StopAt(s, j, Waiting) || StopAt(s, j, Drained)
  }

  function Apply(s: State, e: Step): State
    requires Enabled(s, e)
  {
    match e
    case LockRun(i) => s.(runs := s.runs[i := Locked], lock := RunCall(i))
    case CheckRun(i) =>
      if s.closed then s.(runs := s.runs[i := Refused], lock := Free)
      else s.(runs := s.runs[i := Added], wg := s.wg + 1)
    case UnlockRun(i) => s.(runs := s.runs[i := Launched], lock := Free)
    case Start(i) => s.(runs := s.runs[i := Running(s.cancelled)])
    case ReturnRun(i) => s.(runs := s.runs[i := RunReturned])
    case DoneRun(i) => s.(runs := s.runs[i := Finished], wg := s.wg - 1)
    case LockStop(j) => s.(stops := s.stops[j := Holding], lock := StopCall(j))
    case CheckStop(j) =>
      if s.closed then s.(stops := s.stops[j := Superseded], lock := Free)
      else s.(stops := s.stops[j := Closing], closed := true)
    case Cancel(j) => s.(stops := s.stops[j := Cancelling], cancelled := true)
    case UnlockStop(j) => s.(stops := s.stops[j := Waiting], lock := Free)
    case Drain(j) => s.(stops := s.stops[j := Drained])
    case ReturnDone(j) => s.(stops := s.stops[j := DoneReturn])
    case ReturnTimeout(j) => s.(stops := s.stops[j := TimedOut])
  }

  ghost predicate Reaches(s: State, steps: seq<Step>, t: State)
    decreases |steps|
  {
    if steps == [] then s == t
    else Enabled(s, steps[0]) && Reaches(Apply(s, steps[0]), steps[1..], t)
  }

  // ---------------------------------------------------------------- the invariant

  function InFlight(s: State): set<nat> { set i: nat | i < |s.runs| && s.runs[i].Counted() }

  function Registered(s: State): set<nat> { set i: nat | i < |s.runs| && s.runs[i].Registered() }

  /** The mutex is held by exactly the call that believes it holds it. */
  ghost predicate LockInv(s: State) {
    && (forall i: nat :: i < |s.runs| ==> (s.runs[i].Holds() <==> s.lock == RunCall(i)))
    && (forall j: nat :: j < |s.stops| ==> (s.stops[j].Holds() <==> s.lock == StopCall(j)))
    && (s.lock.RunCall? ==> s.lock.i < |s.runs|)
    && (s.lock.StopCall? ==> s.lock.j < |s.stops|)
  }

  /** One Shutdown call closes; the context is cancelled before it lets go of the mutex; a drained
      elector has nothing in flight. */
  ghost predicate CloseInv(s: State) {
    && (s.closed <==> exists j: nat :: j < |s.stops| && s.stops[j].Won())
    && (forall j: nat, k: nat :: j < |s.stops| && k < |s.stops| && s.stops[j].Won() && s.stops[k].Won() ==> j == k)
    && (s.cancelled ==> s.closed)
    && (forall j: nat :: j < |s.stops| && s.stops[j].Won() && !s.stops[j].Closing? ==> s.cancelled)
    && (forall j: nat :: j < |s.stops| && s.stops[j].Superseded? ==> s.cancelled)
    && (forall j: nat :: j < |s.stops| && (s.stops[j].Drained? || s.stops[j].DoneReturn?) ==> InFlight(s) == {})
    && (forall i: nat :: i < |s.runs| && s.runs[i].Added? ==> !s.closed)
  }

  ghost predicate Inv(s: State) {
    LockInv(s) && CloseInv(s) && s.wg == |InFlight(s)|
  }

  lemma InitInv(n: nat, m: nat)
    ensures Inv(Init(n, m))
  {
    assert InFlight(Init(n, m)) == {};
  }

  lemma RunMoved(s: State, t: State, i: nat, p: RunPhase)
    requires i < |s.runs| && t.runs == s.runs[i := p]
    ensures |InFlight(t)| == |InFlight(s)| + (if p.Counted() then 1 else 0) - (if s.runs[i].Counted() then 1 else 0)
    ensures !p.Counted() || s.runs[i].Counted() ==> InFlight(t) <= InFlight(s)
  {
    assert InFlight(t) - {i} == InFlight(s) - {i};
    MovedOne(InFlight(s), InFlight(t), i);
  }

  predicate IsRunStep(e: Step) { e.LockRun? || e.CheckRun? || e.UnlockRun? || e.Start? || e.ReturnRun? || e.DoneRun? }

  lemma RunStepLock(s: State, e: Step)
    requires LockInv(s) && Enabled(s, e) && IsRunStep(e)
    ensures LockInv(Apply(s, e))
  {
  }

  lemma StopStepLock(s: State, e: Step)
    requires LockInv(s) && Enabled(s, e) && !IsRunStep(e)
    ensures LockInv(Apply(s, e))
  {
  }

  lemma RunStepInv(s: State, e: Step)
    requires Inv(s) && Enabled(s, e) && IsRunStep(e)
    ensures Inv(Apply(s, e))
  {
    var t := Apply(s, e);
    RunStepLock(s, e);
    RunMoved(s, t, e.i, t.runs[e.i]);
    assert e.DoneRun? ==> e.i in InFlight(s);
    assert t.stops == s.stops && t.closed == s.closed;
  }

  /** The call that moves closes the elector, or leaves it as it was. */
  lemma CheckStopClose(s: State, j: nat)
    requires LockInv(s) && CloseInv(s) && StopAt(s, j, Holding)
    ensures CloseInv(Apply(s, CheckStop(j)))
  {
    var t := Apply(s, CheckStop(j));
    assert InFlight(t) == InFlight(s);
    if s.closed {
      var w: nat :| w < |s.stops| && s.stops[w].Won();
      assert t.stops[w].Won();
    } else {
      assert t.stops[j].Won();
    }
  }

  lemma StopStepClose(s: State, e: Step)
    requires LockInv(s) && CloseInv(s) && Enabled(s, e) && !IsRunStep(e)
    requires s.wg == 0 ==> InFlight(s) == {}
    ensures CloseInv(Apply(s, e))
  {
    var t, j := Apply(s, e), e.j;
    if e.CheckStop? {
      CheckStopClose(s, j);
    } else {
      assert InFlight(t) == InFlight(s) && t.closed == s.closed;
      assert t.stops[j].Won() == s.stops[j].Won();
      if s.closed {
        var w: nat :| w < |s.stops| && s.stops[w].Won();
        assert t.stops[w].Won();
      }
    }
  }

  lemma StopStepInv(s: State, e: Step)
    requires Inv(s) && Enabled(s, e) && !IsRunStep(e)
    ensures Inv(Apply(s, e))
  {
    StopStepLock(s, e);
    StopStepClose(s, e);
    assert InFlight(Apply(s, e)) == InFlight(s);
  }

  lemma StepInv(s: State, e: Step)
    requires Inv(s) && Enabled(s, e)
    ensures Inv(Apply(s, e))
  {
    if IsRunStep(e) { RunStepInv(s, e); } else { StopStepInv(s, e); }
  }

  lemma {:induction false} RunInv(s: State, steps: seq<Step>, t: State)
    requires Inv(s) && Reaches(s, steps, t)
    ensures Inv(t)
    decreases |steps|
  {
    if steps != [] {
      StepInv(s, steps[0]);
      RunInv(Apply(s, steps[0]), steps[1..], t);
    }
  }

  // ---------------------------------------------------------------- the theorems

  /** In every run the wait group counts exactly the registered runs that have not finished. */
  lemma WaitGroupCountsUnfinished(n: nat, m: nat, steps: seq<Step>, t: State)
    requires Reaches(Init(n, m), steps, t)
    ensures t.wg == |set i: nat | i < |t.runs| && i in Registered(t) && t.runs[i] != Finished| >= 0
  {
    InitInv(n, m);
    RunInv(Init(n, m), steps, t);
    assert (set i: nat | i < |t.runs| && i in Registered(t) && t.runs[i] != Finished) == InFlight(t);
  }

  /** Once closed is set, no later state has a new registration, however the run goes on. */
  lemma {:induction false} NoneRegistersAfterClose(s: State, steps: seq<Step>, t: State)
    requires s.closed && Reaches(s, steps, t)
    ensures t.closed && Registered(t) == Registered(s)
    decreases |steps|
  {
    if steps != [] {
      var u := Apply(s, steps[0]);
      assert |u.runs| == |s.runs|;
      assert forall i: nat :: i < |s.runs| ==> (u.runs[i].Registered() <==> s.runs[i].Registered());
      assert Registered(u) == Registered(s);
      NoneRegistersAfterClose(u, steps[1..], t);
    }
  }

  /** When any Shutdown call has returned, by whichever path, the elector is closed and its context
      cancelled: a RunSingleton that checks from then on is a no-op, and a run that only begins
      then begins with a cancelled context. */
  lemma AfterAnyShutdown(n: nat, m: nat, steps: seq<Step>, t: State, j: nat, i: nat)
    requires Reaches(Init(n, m), steps, t) && j < |t.stops| && t.stops[j].Returned()
    ensures t.closed && t.cancelled
    ensures Enabled(t, CheckRun(i)) ==> Apply(t, CheckRun(i)).runs[i] == Refused
    ensures Enabled(t, Start(i)) ==> Apply(t, Start(i)).runs[i] == Running(true)
  {
    InitInv(n, m);
    RunInv(Init(n, m), steps, t);
  }

  /** When a Shutdown returns by its done channel, every registered run has returned, and that
      stays so: at no later state has anything started or registered. */
  lemma ShutdownDrains(n: nat, m: nat, steps: seq<Step>, s: State, j: nat, more: seq<Step>, t: State)
    requires Reaches(Init(n, m), steps, s) && j < |s.stops| && s.stops[j] == DoneReturn
    requires Reaches(s, more, t)
    ensures Registered(t) == Registered(s)
    ensures forall i :: i in Registered(t) ==> t.runs[i] == Finished
    ensures forall i: nat :: i < |t.runs| ==> !t.runs[i].Running? && !t.runs[i].Launched?
  {
    InitInv(n, m);
    RunInv(Init(n, m), steps, s);
    RunInv(s, more, t);
    NoneRegistersAfterClose(s, more, t);
    DoneReturnStays(s, more, t, j);
    forall i: nat | i < |t.runs| ensures !t.runs[i].Counted() { assert i !in InFlight(t); }
  }

  lemma {:induction false} DoneReturnStays(s: State, steps: seq<Step>, t: State, j: nat)
    requires j < |s.stops| && s.stops[j] == DoneReturn && Reaches(s, steps, t)
    ensures j < |t.stops| && t.stops[j] == DoneReturn
    decreases |steps|
  {
    if steps != [] { DoneReturnStays(Apply(s, steps[0]), steps[1..], t, j); }
  }

  // ---------------------------------------------------------------- progress

  predicate Settled(s: State) {
    && (forall i :: 0 <= i < |s.runs| ==> s.runs[i].Refused? || s.runs[i].Finished?)
    && (forall j :: 0 <= j < |s.stops| ==> s.stops[j].Returned())
  }

  /** No deadlock: while any call or run is unfinished, a step is enabled that does not rely on a
      caller's context expiring. */
  lemma SomeStepEnabled(n: nat, m: nat, steps: seq<Step>, t: State)
    requires Reaches(Init(n, m), steps, t) && !Settled(t)
    ensures exists e :: Enabled(t, e) && !e.ReturnTimeout?
  {
    InitInv(n, m);
    RunInv(Init(n, m), steps, t);
    if t.lock.RunCall? {
      var i := t.lock.i;
      assert Enabled(t, if t.runs[i] == Locked then CheckRun(i) else UnlockRun(i));
    } else if t.lock.StopCall? {
      var j := t.lock.j;
      assert Enabled(t, match t.stops[j]
                        case Holding => CheckStop(j)
                        case Closing => Cancel(j)
                        case _ => UnlockStop(j));
    } else if i: nat :| i < |t.runs| && !t.runs[i].Refused? && !t.runs[i].Finished? {
      assert Enabled(t, match t.runs[i]
                        case Idle => LockRun(i)
                        case Launched => Start(i)
                        case Running(_) => ReturnRun(i)
                        case _ => DoneRun(i));
    } else {
      assert InFlight(t) == {};
      var j: nat :| j < |t.stops| && !t.stops[j].Returned();
      assert Enabled(t, match t.stops[j]
                        case NotCalled => LockStop(j)
                        case Waiting => Drain(j)
                        case _ => ReturnDone(j));
    }
  }

  function RunsLeft(runs: seq<RunPhase>): nat {
    if runs == [] then 0 else RunsLeft(runs[..|runs| - 1]) + runs[|runs| - 1].Left()
  }

  function StopsLeft(stops: seq<StopPhase>): nat {
    if stops == [] then 0 else StopsLeft(stops[..|stops| - 1]) + stops[|stops| - 1].Left()
  }

  lemma {:induction false} RunsLeftUpdate(runs: seq<RunPhase>, i: nat, p: RunPhase)
    requires i < |runs|
    ensures RunsLeft(runs[i := p]) == RunsLeft(runs) - runs[i].Left() + p.Left()
  {
    var n := |runs| - 1;
    if i == n {
      assert runs[i := p][..n] == runs[..n];
    } else {
      assert runs[i := p][..n] == runs[..n][i := p];
      RunsLeftUpdate(runs[..n], i, p);
    }
  }

  lemma {:induction false} StopsLeftUpdate(stops: seq<StopPhase>, j: nat, p: StopPhase)
    requires j < |stops|
    ensures StopsLeft(stops[j := p]) == StopsLeft(stops) - stops[j].Left() + p.Left()
  {
    var n := |stops| - 1;
    if j == n {
      assert stops[j := p][..n] == stops[..n];
    } else {
      assert stops[j := p][..n] == stops[..n][j := p];
      StopsLeftUpdate(stops[..n], j, p);
    }
  }

  function Measure(s: State): nat { RunsLeft(s.runs) + StopsLeft(s.stops) }

  lemma RunStepMeasure(s: State, e: Step)
    requires Enabled(s, e) && IsRunStep(e)
    ensures Measure(Apply(s, e)) < Measure(s)
  {
    RunsLeftUpdate(s.runs, e.i, Apply(s, e).runs[e.i]);
  }

  lemma StopStepMeasure(s: State, e: Step)
    requires Enabled(s, e) && !IsRunStep(e)
    ensures Measure(Apply(s, e)) < Measure(s)
  {
    StopsLeftUpdate(s.stops, e.j, Apply(s, e).stops[e.j]);
  }

  /** Every run of the protocol ends: its length is bounded by its first state. */
  lemma {:induction false} RunsAreBounded(s: State, steps: seq<Step>, t: State)
    requires Reaches(s, steps, t)
    ensures |steps| + Measure(t) <= Measure(s)
    decreases |steps|
  {
    if steps != [] {
      if IsRunStep(steps[0]) { RunStepMeasure(s, steps[0]); } else { StopStepMeasure(s, steps[0]); }
      RunsAreBounded(Apply(s, steps[0]), steps[1..], t);
    }
  }

  // ---------------------------------------------------------------- which Shutdown waits

  /** The runs whose function has not returned, from the moment they are registered. */
  function Going(s: State): set<nat> {
    set i: nat | i < |s.runs| && (s.runs[i].Added? || s.runs[i].Launched? || s.runs[i].Running?)
  }

  /** Call j has returned, and not by its caller's timeout. */
  predicate Answered(s: State, j: nat) { j < |s.stops| && s.stops[j].Returned() && !s.stops[j].TimedOut? }

  /** However the run of the protocol goes on, once the call has answered, every run has returned. */
  ghost predicate WaitsForRuns(s: State, j: nat) {
    forall steps, t :: Reaches(s, steps, t) && Answered(t, j) ==> Going(t) == {}
  }

  /** The documentation promises that Shutdown waits for every run to return. A call that has taken
      the lock keeps that promise if and only if the elector is not closed yet or no run is going any
      more. */
  lemma ShutdownWaitsExactly(n: nat, m: nat, steps: seq<Step>, s: State, j: nat)
    requires Reaches(Init(n, m), steps, s) && StopAt(s, j, Holding)
    ensures WaitsForRuns(s, j) <==> !s.closed || Going(s) == {}
  {
    InitInv(n, m);
    RunInv(Init(n, m), steps, s);
    if s.closed && Going(s) != {} {
      SupersededAtOnce(s, j);
    } else {
      forall more, t | Reaches(s, more, t) && Answered(t, j) ensures Going(t) == {} {
        if s.closed {
          NoneGoingStays(s, more, t);
        } else {
          RunInv(s, more, t);
          HolderWins(s, more, t, j);
          assert Going(t) <= InFlight(t);
        }
      }
    }
  }

  lemma SupersededAtOnce(s: State, j: nat)
    requires StopAt(s, j, Holding) && s.closed && Going(s) != {}
    ensures !WaitsForRuns(s, j)
  {
    var e := CheckStop(j);
    var t := Apply(s, e);
    assert Going(t) == Going(s);
    assert Reaches(t, [e][1..], t);
    assert Reaches(s, [e], t);
  }

  lemma {:induction false} NoneGoingStays(s: State, steps: seq<Step>, t: State)
    requires s.closed && Going(s) == {} && Reaches(s, steps, t)
    ensures Going(t) == {}
    decreases |steps|
  {
    if steps != [] {
      var u := Apply(s, steps[0]);
      forall i: nat | i < |u.runs| ensures i !in Going(u) { assert i !in Going(s); }
      NoneGoingStays(u, steps[1..], t);
    }
  }

  /** A call that holds the lock of an open elector is the one that closes it. */
  lemma {:induction false} HolderWins(s: State, steps: seq<Step>, t: State, j: nat)
    requires Inv(s) && Reaches(s, steps, t) && j < |s.stops|
    requires s.stops[j].Won() || (s.stops[j].Holding? && !s.closed)
    ensures j < |t.stops| && (t.stops[j].Won() || t.stops[j].Holding?)
    decreases |steps|
  {
    if steps != [] {
      StepInv(s, steps[0]);
      HolderWins(Apply(s, steps[0]), steps[1..], t, j);
    }
  }

  // ---------------------------------------------------------------- a second Shutdown

  ghost predicate Reachable(n: nat, m: nat, t: State) {
    exists steps :: Reaches(Init(n, m), steps, t)
  }

  lemma {:induction false} Append(s: State, steps: seq<Step>, t: State, e: Step)
    requires Reaches(s, steps, t) && Enabled(t, e)
    ensures Reaches(s, steps + [e], Apply(t, e))
    decreases |steps|
  {
    if steps == [] {
      assert [e][1..] == [] && Reaches(Apply(t, e), [], Apply(t, e));
    } else {
      assert (steps + [e])[1..] == steps[1..] + [e];
      Append(Apply(s, steps[0]), steps[1..], t, e);
    }
  }

  lemma Onward(n: nat, m: nat, t: State, e: Step) returns (u: State)
    requires Reachable(n, m, t) && Enabled(t, e)
    ensures u == Apply(t, e) && Reachable(n, m, u)
  {
    u := Apply(t, e);
    var steps :| Reaches(Init(n, m), steps, t);
    Append(Init(n, m), steps, t, e);
  }

  lemma OneRuns() returns (s: State)
    ensures s == State([Running(false)], [NotCalled, NotCalled], Free, 1, false, false) && Reachable(1, 2, s)
  {
    s := State([Idle], [NotCalled, NotCalled], Free, 0, false, false);
    assert Init(1, 2) == s && Reaches(s, [], s);
    s := Onward(1, 2, s, LockRun(0));
    s := Onward(1, 2, s, CheckRun(0));
    s := Onward(1, 2, s, UnlockRun(0));
    s := Onward(1, 2, s, Start(0));
  }

  /** A run is going while the first Shutdown waits for it. */
  lemma OneWaits() returns (s: State)
    ensures s == State([Running(false)], [Waiting, NotCalled], Free, 1, true, true) && Reachable(1, 2, s)
  {
    s := OneRuns();
    s := Onward(1, 2, s, LockStop(0));
    s := Onward(1, 2, s, CheckStop(0));
    s := Onward(1, 2, s, Cancel(0));
    s := Onward(1, 2, s, UnlockStop(0));
  }

  /** The case that fails does occur: a second call has returned while a run is still going. */
  lemma SecondShutdownDoesNotWait()
    ensures Reachable(1, 2, State([Running(false)], [Waiting, Superseded], Free, 1, true, true))
  {
    var s := OneWaits();
    s := Onward(1, 2, s, LockStop(1));
    s := Onward(1, 2, s, CheckStop(1));
    assert s == State([Running(false)], [Waiting, Superseded], Free, 1, true, true);
  }
}
