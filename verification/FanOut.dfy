/** The bounded fan-out of `runDiscoveryChunks` (internal/ai/proposer_discovery_chunk.go), as
    interleaved steps of the caller and one goroutine per chunk. The semaphore channel is its
    occupancy, the wait group its counter, and every goroutine owns one slot of each slice.

    What the call for chunk i answers is fixed beforehand (calls[i]); the schedule is not. */
module FanOut {
  import opened Counting
  import opened GoStrings
  import opened DiscoveryPlan

  /** discoveryChunkConcurrency */
  const LIMIT: nat := 4

  /** A goroutine: not spawned, waiting for the semaphore, in its call, slot written and semaphore
      held, semaphore released, wg.Done called. */
  datatype Phase = Unborn | Queued | Calling | Answered | Released | Done {
    predicate HoldsSlot() { Calling? || Answered? }
    predicate Counted() { !Unborn? && !Done? }
    predicate Written() { Answered? || Released? || Done? }
    /** The number of steps left. */
    function Left(): nat {
      match this
      case Unborn => 5
      case Queued => 4
      case Calling => 3
      case Answered => 2
      case Released => 1
      case Done => 0
    }
  }

  /** What runDiscoveryChunks returns: the error of its only call, an error naming the number of
      chunks and the last error, or a proposal. */
  datatype Final = Failed(error: string) | AllFailed(chunks: nat, last: Option<string>) | Proposed(proposal: Proposal)

  datatype State = State(
    next: nat, phase: seq<Phase>, sem: nat, wg: int,
    results: seq<Option<Proposal>>, errs: seq<Option<string>>, returned: Option<Final>)

  datatype Step = Spawn | Acquire(i: nat) | Answer(i: nat) | Release(i: nat) | Finish(i: nat) | Return

  function Init(n: nat): State {
    State(0, seq(n, _ => Unborn), 0, 0, seq(n, _ => None), seq(n, _ => None), None)
  }

  predicate At(s: State, i: nat, p: Phase) { i < |s.phase| && s.phase[i] == p }

  predicate Enabled(s: State, e: Step) {
    match e
    case Spawn => s.next < |s.phase|
    case Acquire(i) => At(s, i, Queued) && s.sem < LIMIT
    case Answer(i) => At(s, i, Calling)
    case Release(i) => At(s, i, Answered) && s.sem > 0
    case Finish(i) => At(s, i, Released)
    case Return => s.next == |s.phase| && s.wg == 0 && s.returned.None?
  }

  predicate Shaped(calls: seq<Outcome>, s: State) {
    |s.phase| == |s.results| == |s.errs| == |calls|
  }

  function Apply(calls: seq<Outcome>, s: State, e: Step): State
    requires Shaped(calls, s) && Enabled(s, e)
  {
    match e
    case Spawn => s.(next := s.next + 1, phase := s.phase[s.next := Queued], wg := s.wg + 1)
    case Acquire(i) => s.(phase := s.phase[i := Calling], sem := s.sem + 1)
    case Answer(i) =>
      var t := s.(phase := s.phase[i := Answered]);
      (match calls[i]
       case Ok(p) => t.(results := s.results[i := Some(p)])
       case Err(m) => t.(errs := s.errs[i := Some(m)]))
    case Release(i) => s.(phase := s.phase[i := Released], sem := s.sem - 1)
    case Finish(i) => s.(phase := s.phase[i := Done], wg := s.wg - 1)
    case Return => s.(returned := Some(Collected(s.results, s.errs)))
  }

  /** A finite run of enabled steps from s to t. */
  ghost predicate Runs(calls: seq<Outcome>, s: State, steps: seq<Step>, t: State)
    decreases |steps|
  {
    if steps == [] then s == t
    else Shaped(calls, s) && Enabled(s, steps[0]) && Runs(calls, Apply(calls, s, steps[0]), steps[1..], t)
  }

  // ---------------------------------------------------------------- collecting the slots

  function Good(results: seq<Option<Proposal>>): seq<Proposal> {
    if results == [] then []
    else Good(results[..|results| - 1]) + (if results[|results| - 1].Some? then [results[|results| - 1].value] else [])
  }

  /** The error of the last slot that has an error and no result. */
  function LastError(results: seq<Option<Proposal>>, errs: seq<Option<string>>): Option<string>
    requires |results| == |errs|
  {
    if errs == [] then None
    else if results[|errs| - 1].None? && errs[|errs| - 1].Some? then errs[|errs| - 1]
    else LastError(results[..|errs| - 1], errs[..|errs| - 1])
  }

  function Collected(results: seq<Option<Proposal>>, errs: seq<Option<string>>): Final
    requires |results| == |errs|
  {
    if Good(results) == [] then AllFailed(|results|, LastError(results, errs)) else Proposed(Merged(Good(results)))
  }

  /** The loop after wg.Wait. */
  method Collect(results: seq<Option<Proposal>>, errs: seq<Option<string>>) returns (f: Final)
    requires |results| == |errs|
    ensures f == Collected(results, errs)
  {
    var ok: seq<Proposal> := [];
    var lastErr: Option<string> := None;
    for i := 0 to |results|
      invariant ok == Good(results[..i])
      invariant lastErr == LastError(results[..i], errs[..i])
    {
      assert results[..i + 1][..i] == results[..i] && errs[..i + 1][..i] == errs[..i];
      if results[i].Some? {
        ok := ok + [results[i].value];
      } else if errs[i].Some? {
        lastErr := errs[i];
      }
    }
    assert results[..|results|] == results && errs[..|errs|] == errs;
    if |ok| == 0 { return AllFailed(|results|, lastErr); }
    var merged := MergeDiscoveryResults(ok);
    return Proposed(merged);
  }

  // ---------------------------------------------------------------- the invariant

  function ResultSlot(o: Outcome): Option<Proposal> { if o.Ok? then Some(o.proposal) else None }

  function ErrorSlot(o: Outcome): Option<string> { if o.Err? then Some(o.error) else None }

  function Holders(s: State): set<nat> { set i: nat | i < |s.phase| && s.phase[i].HoldsSlot() }

  function Unfinished(s: State): set<nat> { set i: nat | i < |s.phase| && s.phase[i].Counted() }

  ghost predicate Inv(calls: seq<Outcome>, s: State) {
    && Shaped(calls, s)
    && s.next <= |calls|
    && (forall i :: 0 <= i < |calls| ==> (s.phase[i] == Unborn <==> s.next <= i))
    && s.sem == |Holders(s)| <= LIMIT
    && s.wg == |Unfinished(s)|
    && (forall i :: 0 <= i < |calls| ==> s.results[i] == if s.phase[i].Written() then ResultSlot(calls[i]) else None)
    && (forall i :: 0 <= i < |calls| ==> s.errs[i] == if s.phase[i].Written() then ErrorSlot(calls[i]) else None)
    && (s.returned.Some? ==> s.next == |calls| && Unfinished(s) == {} && s.returned.value == Verdict(calls))
  }

  /** The value every schedule must return. */
  function Verdict(calls: seq<Outcome>): Final {
    Collected(seq(|calls|, i requires 0 <= i < |calls| => ResultSlot(calls[i])),
              seq(|calls|, i requires 0 <= i < |calls| => ErrorSlot(calls[i])))
  }

  lemma InitInv(calls: seq<Outcome>)
    ensures Inv(calls, Init(|calls|))
  {
    var s := Init(|calls|);
    assert Holders(s) == {} && Unfinished(s) == {};
  }

  /** How one phase change moves the two counted sets. */
  lemma Moved(s: State, t: State, i: nat, p: Phase)
    requires i < |s.phase| && t.phase == s.phase[i := p]
    ensures |Holders(t)| == |Holders(s)| + (if p.HoldsSlot() then 1 else 0) - (if s.phase[i].HoldsSlot() then 1 else 0)
    ensures |Unfinished(t)| ==
            |Unfinished(s)| + (if p.Counted() then 1 else 0) - (if s.phase[i].Counted() then 1 else 0)
  {
    assert Holders(t) - {i} == Holders(s) - {i};
    MovedOne(Holders(s), Holders(t), i);
    assert Unfinished(t) - {i} == Unfinished(s) - {i};
    MovedOne(Unfinished(s), Unfinished(t), i);
  }

  lemma SpawnInv(calls: seq<Outcome>, s: State)
    requires Inv(calls, s) && Enabled(s, Spawn)
    ensures Inv(calls, Apply(calls, s, Spawn))
  {
    Moved(s, Apply(calls, s, Spawn), s.next, Queued);
  }

  lemma AcquireInv(calls: seq<Outcome>, s: State, i: nat)
    requires Inv(calls, s) && Enabled(s, Acquire(i))
    ensures Inv(calls, Apply(calls, s, Acquire(i)))
  {
    Moved(s, Apply(calls, s, Acquire(i)), i, Calling);
  }

  lemma AnswerInv(calls: seq<Outcome>, s: State, i: nat)
    requires Inv(calls, s) && Enabled(s, Answer(i))
    ensures Inv(calls, Apply(calls, s, Answer(i)))
  {
    Moved(s, Apply(calls, s, Answer(i)), i, Answered);
  }

  lemma ReleaseInv(calls: seq<Outcome>, s: State, i: nat)
    requires Inv(calls, s) && Enabled(s, Release(i))
    ensures Inv(calls, Apply(calls, s, Release(i)))
  {
    Moved(s, Apply(calls, s, Release(i)), i, Released);
  }

  lemma FinishInv(calls: seq<Outcome>, s: State, i: nat)
    requires Inv(calls, s) && Enabled(s, Finish(i))
    ensures Inv(calls, Apply(calls, s, Finish(i)))
  {
    assert i in Unfinished(s);
    Moved(s, Apply(calls, s, Finish(i)), i, Done);
  }

  lemma StepInv(calls: seq<Outcome>, s: State, e: Step)
    requires Inv(calls, s) && Enabled(s, e)
    ensures Inv(calls, Apply(calls, s, e))
  {
    match e
    case Spawn => SpawnInv(calls, s);
    case Acquire(i) => AcquireInv(calls, s, i);
    case Answer(i) => AnswerInv(calls, s, i);
    case Release(i) => ReleaseInv(calls, s, i);
    case Finish(i) => FinishInv(calls, s, i);
    case Return => ReturnInv(calls, s);
  }

  lemma ReturnInv(calls: seq<Outcome>, s: State)
    requires Inv(calls, s) && s.next == |calls| && s.wg == 0
    ensures Unfinished(s) == {} && Collected(s.results, s.errs) == Verdict(calls)
  {
    assert Unfinished(s) == {};
    forall i: nat | i < |calls| ensures s.phase[i] == Done { assert i !in Unfinished(s); }
    assert s.results == seq(|calls|, i requires 0 <= i < |calls| => ResultSlot(calls[i]));
    assert s.errs == seq(|calls|, i requires 0 <= i < |calls| => ErrorSlot(calls[i]));
  }

  lemma {:induction false} RunInv(calls: seq<Outcome>, s: State, steps: seq<Step>, t: State)
    requires Inv(calls, s) && Runs(calls, s, steps, t)
    ensures Inv(calls, t)
    decreases |steps|
  {
    if steps != [] {
      StepInv(calls, s, steps[0]);
      RunInv(calls, Apply(calls, s, steps[0]), steps[1..], t);
    }
  }

  // ---------------------------------------------------------------- the theorems

  function InCall(s: State): set<nat> { set i: nat | i < |s.phase| && s.phase[i] == Calling }

  /** In every interleaving at most four chunk calls are in flight. */
  lemma AtMostFourCalls(calls: seq<Outcome>, steps: seq<Step>, t: State)
    requires Runs(calls, Init(|calls|), steps, t)
    ensures |InCall(t)| <= 4
  {
    InitInv(calls);
    RunInv(calls, Init(|calls|), steps, t);
    SubsetIsSmaller(InCall(t), Holders(t));
  }

  /** No deadlock: until the caller has returned, some step is enabled. */
  lemma SomeStepEnabled(calls: seq<Outcome>, steps: seq<Step>, t: State)
    requires Runs(calls, Init(|calls|), steps, t) && t.returned.None?
    ensures exists e :: Enabled(t, e)
  {
    InitInv(calls);
    RunInv(calls, Init(|calls|), steps, t);
    if t.next < |calls| {
      assert Enabled(t, Spawn);
    } else if t.wg == 0 {
      assert Enabled(t, Return);
    } else {
      assert Unfinished(t) != {};
      var i :| i in Unfinished(t);
      match t.phase[i]
      case Calling => assert Enabled(t, Answer(i));
      case Answered =>
        assert i in Holders(t);
        assert Enabled(t, Release(i));
      case Released => assert Enabled(t, Finish(i));
      case Queued => QueuedMoves(calls, t, i);
    }
  }

  /** A goroutine that waits for the semaphore gets it, or one that holds it can go on. */
  lemma QueuedMoves(calls: seq<Outcome>, t: State, i: nat)
    requires Inv(calls, t) && At(t, i, Queued)
    ensures exists e :: Enabled(t, e)
  {
    if t.sem < LIMIT {
      assert Enabled(t, Acquire(i));
    } else {
      assert Holders(t) != {};
      var j :| j in Holders(t);
      assert Enabled(t, if t.phase[j] == Calling then Answer(j) else Release(j));
    }
  }

  function StepsLeft(phase: seq<Phase>): nat {
    if phase == [] then 0 else StepsLeft(phase[..|phase| - 1]) + phase[|phase| - 1].Left()
  }

  function Measure(s: State): nat { StepsLeft(s.phase) + if s.returned.Some? then 0 else 1 }

  lemma {:induction false} StepsLeftUpdate(phase: seq<Phase>, i: nat, p: Phase)
    requires i < |phase|
    ensures StepsLeft(phase[i := p]) == StepsLeft(phase) - phase[i].Left() + p.Left()
  {
    var n := |phase| - 1;
    if i == n {
      assert phase[i := p][..n] == phase[..n];
    } else {
      assert phase[i := p][..n] == phase[..n][i := p];
      StepsLeftUpdate(phase[..n], i, p);
    }
  }

  lemma {:induction false} StepsLeftInit(n: nat)
    ensures StepsLeft(seq(n, _ => Unborn)) == 5 * n
  {
    if n > 0 {
      var s: seq<Phase> := seq(n, _ => Unborn);
      assert s[..n - 1] == seq(n - 1, _ => Unborn);
      StepsLeftInit(n - 1);
    }
  }

  lemma StepMeasure(calls: seq<Outcome>, s: State, e: Step)
    requires Shaped(calls, s) && Enabled(s, e) && (e.Spawn? ==> At(s, s.next, Unborn))
    ensures Measure(Apply(calls, s, e)) == Measure(s) - 1
  {
    match e
    case Spawn => StepsLeftUpdate(s.phase, s.next, Queued);
    case Acquire(i) => StepsLeftUpdate(s.phase, i, Calling);
    case Answer(i) => StepsLeftUpdate(s.phase, i, Answered);
    case Release(i) => StepsLeftUpdate(s.phase, i, Released);
    case Finish(i) => StepsLeftUpdate(s.phase, i, Done);
    case Return =>
  }

  lemma {:induction false} RunMeasure(calls: seq<Outcome>, s: State, steps: seq<Step>, t: State)
    requires Inv(calls, s) && Runs(calls, s, steps, t)
    ensures |steps| + Measure(t) == Measure(s)
    decreases |steps|
  {
    if steps != [] {
      StepMeasure(calls, s, steps[0]);
      StepInv(calls, s, steps[0]);
      RunMeasure(calls, Apply(calls, s, steps[0]), steps[1..], t);
    }
  }

  /** Every run is finite: n chunks take five steps each and the caller one, in any order, and the
      caller has returned exactly when they are used up. */
  lemma RunsAreBounded(calls: seq<Outcome>, steps: seq<Step>, t: State)
    requires Runs(calls, Init(|calls|), steps, t)
    ensures |steps| <= 5 * |calls| + 1
    ensures t.returned.Some? <==> |steps| == 5 * |calls| + 1
  {
    InitInv(calls);
    RunInv(calls, Init(|calls|), steps, t);
    RunMeasure(calls, Init(|calls|), steps, t);
    StepsLeftInit(|calls|);
    if t.returned.Some? { ReturnedMeansDone(calls, t); }
  }

  lemma ReturnedMeansDone(calls: seq<Outcome>, t: State)
    requires Inv(calls, t) && t.returned.Some?
    ensures Measure(t) == 0
  {
    forall i: nat | i < |t.phase| ensures t.phase[i] == Done { assert i !in Unfinished(t); }
    AllDone(t.phase);
  }

  lemma {:induction false} AllDone(phase: seq<Phase>)
    requires forall i :: 0 <= i < |phase| ==> phase[i] == Done
    ensures StepsLeft(phase) == 0
  {
    if phase != [] { AllDone(phase[..|phase| - 1]); }
  }

  /** When the caller returns, every slot pair holds exactly one value, the one its own call
      answered, and the returned value is the same for every schedule. */
  lemma ScheduleIndependent(calls: seq<Outcome>, steps: seq<Step>, t: State)
    requires Runs(calls, Init(|calls|), steps, t) && t.returned.Some?
    ensures t.returned.value == Verdict(calls)
    ensures |t.results| == |t.errs| == |calls|
    ensures forall i :: 0 <= i < |calls| ==> t.results[i] == ResultSlot(calls[i]) && t.errs[i] == ErrorSlot(calls[i])
    ensures forall i :: 0 <= i < |calls| ==> t.results[i].Some? != t.errs[i].Some?
  {
    InitInv(calls);
    RunInv(calls, Init(|calls|), steps, t);
    forall i: nat | i < |calls| ensures t.phase[i] == Done { assert i !in Unfinished(t); }
  }

  // ---------------------------------------------------------------- the value

  function Answers(calls: seq<Outcome>): seq<Proposal> {
    if calls == [] then []
    else Answers(calls[..|calls| - 1]) + (if calls[|calls| - 1].Ok? then [calls[|calls| - 1].proposal] else [])
  }

  function LastFailure(calls: seq<Outcome>): Option<string> {
    if calls == [] then None
    else if calls[|calls| - 1].Err? then Some(calls[|calls| - 1].error)
    else LastFailure(calls[..|calls| - 1])
  }

  /** What the answers and the last failure are, without their recursion. */
  lemma {:induction false} AnswersConcat(a: seq<Outcome>, b: seq<Outcome>)
    ensures Answers(a + b) == Answers(a) + Answers(b)
    ensures LastFailure(a + b) == if LastFailure(b).Some? then LastFailure(b) else LastFailure(a)
  {
    if b == [] {
      assert a + b == a;
    } else {
      assert (a + b)[..|a + b| - 1] == a + b[..|b| - 1];
      AnswersConcat(a, b[..|b| - 1]);
    }
  }

  lemma AnswerOfOne(o: Outcome)
    ensures Answers([o]) == match o case Ok(p) => [p] case Err(_) => []
    ensures LastFailure([o]) == match o case Ok(_) => None case Err(m) => Some(m)
  {
    assert [o][..0] == [];
  }

  /** That value in terms of the answers alone: the merge of the successful ones in tier order,
      whatever failed beside them; the last failure in tier order when all failed. */
  lemma FanOutValue(calls: seq<Outcome>)
    ensures Verdict(calls) ==
            if Answers(calls) == [] then AllFailed(|calls|, LastFailure(calls)) else Proposed(Merged(Answers(calls)))
  {
    SlotValues(calls);
  }

  lemma {:induction false} SlotValues(calls: seq<Outcome>)
    ensures var rs := seq(|calls|, i requires 0 <= i < |calls| => ResultSlot(calls[i]));
            var es := seq(|calls|, i requires 0 <= i < |calls| => ErrorSlot(calls[i]));
            Good(rs) == Answers(calls) && LastError(rs, es) == LastFailure(calls)
  {
    if calls != [] {
      var n := |calls| - 1;
      var init := calls[..n];
      SlotValues(init);
      var rs := seq(|calls|, i requires 0 <= i < |calls| => ResultSlot(calls[i]));
      var es := seq(|calls|, i requires 0 <= i < |calls| => ErrorSlot(calls[i]));
      assert rs[..n] == seq(n, i requires 0 <= i < n => ResultSlot(init[i]));
      assert es[..n] == seq(n, i requires 0 <= i < n => ErrorSlot(init[i]));
    }
  }

  // ---------------------------------------------------------------- from inventory to plan

  /** discoveryChunkTierThreshold and discoveryChunkResourceThreshold */
  const TIER_THRESHOLD: nat := 3
  const RESOURCE_THRESHOLD: nat := 12

  /** The chunks share out the inventory of c without loss, and each keeps all else, its scope
      among it. */
  ghost predicate SharesOut(c: ScanContext, chunks: seq<ScanContext>) {
    AbsorbAll(Strip(c), chunks) == c && forall d :: d in chunks ==> Strip(d) == Strip(c) && d.ScopeID() == c.ScopeID()
  }

  lemma SplitSharesOut(c: ScanContext)
    ensures SharesOut(c, Split(c, TIERS)) && |Split(c, TIERS)| == TierCount(c, TIERS)
  {
    SplitConserves(c);
    var _ := SplitChunks(c, TIERS);
  }

  lemma WholeSharesOut(c: ScanContext)
    ensures SharesOut(c, [c])
  {
    assert [] + [c] == [c];
  }

  /** Whether the inventory is worth splitting and can be split. */
  predicate Chunked(c: ScanContext) {
    TierCount(c, TIERS) > 1 && (TierCount(c, TIERS) >= TIER_THRESHOLD || ResourceCount(c, TIERS) > RESOURCE_THRESHOLD)
  }

  /** The calls runDiscoveryChunks decides to make: one for the whole inventory, or one per tier. */
  method PlanCalls(c: ScanContext) returns (chunks: seq<ScanContext>)
    ensures SharesOut(c, chunks)
    ensures chunks == if Chunked(c) then Split(c, TIERS) else [c]
    ensures |chunks| > 1 <==> |FullTiers(c)| >= 3 || (|FullTiers(c)| == 2 && Resources(c) > 12)
  {
    SplitSharesOut(c);
    WholeSharesOut(c);
    var tiers, resources := InventorySize(c);
    if tiers < TIER_THRESHOLD && resources <= RESOURCE_THRESHOLD { return [c]; }
    chunks := SplitByTier(c);
    if |chunks| <= 1 { return [c]; }
  }

  function CallAll(propose: ScanContext -> Outcome, chunks: seq<ScanContext>): seq<Outcome> {
    seq(|chunks|, i requires 0 <= i < |chunks| => propose(chunks[i]))
  }

  /** `f` is what runDiscoveryChunks returns for the calls it planned: after some run of the fan-out
      when there are several, straight from the call when there is one. */
  ghost predicate Concludes(chunks: seq<ScanContext>, propose: ScanContext -> Outcome, f: Final)
    requires chunks != []
  {
    if |chunks| > 1 then
      var calls := CallAll(propose, chunks);
      exists steps, t :: Runs(calls, Init(|calls|), steps, t) && t.returned == Some(f)
    else
      f == match propose(chunks[0])
           case Ok(p) => Proposed(p)
           case Err(m) => Failed(m)
  }

  /** Every call's reply was decided for the scope of its chunk. */
  predicate AllDecided(propose: ScanContext -> Outcome, chunks: seq<ScanContext>) {
    forall i :: 0 <= i < |chunks| ==> Decided(propose(chunks[i]), chunks[i].ScopeID())
  }

  /** The plan is declined exactly when it is empty, and every step names the scope and carries a
      snippet. */
  ghost predicate SoundPlan(p: Proposal, scope: string) {
    (p.declined <==> p.steps == []) && forall s :: s in p.steps ==> GoodStep(s, scope)
  }

  /** The whole pipeline, for every inventory shared out among its calls as PlanCalls does, every
      proposer whose replies were decided for their chunk, and every schedule: the plan that comes
      out is declined exactly when it is empty, every step names the scope of the original scan and
      carries a snippet, its steps and usage are those of the calls that succeeded, and there is no
      plan exactly when none did. */
  lemma PipelineIsSound(c: ScanContext, chunks: seq<ScanContext>, propose: ScanContext -> Outcome, f: Final)
    requires chunks != [] && SharesOut(c, chunks) && AllDecided(propose, chunks) && Concludes(chunks, propose, f)
    ensures var answers := Answers(CallAll(propose, chunks));
            match f
            case Failed(m) => chunks == [c] && propose(c) == Err(m) && answers == []
            case AllFailed(n, _) => n == |chunks| > 1 && answers == []
            case Proposed(p) =>
              && answers != [] && SoundPlan(p, c.ScopeID()) && p.steps == AllSteps(answers)
              && p.tokensIn == SumIn(answers) && p.tokensOut == SumOut(answers)
  {
    if |chunks| > 1 {
      SplitPathIsSound(chunks, propose, f, c.ScopeID());
    } else {
      OnlyCallIsWhole(c, chunks);
      SingleCall(c, chunks, propose);
    }
  }

  lemma OnlyCallIsWhole(c: ScanContext, chunks: seq<ScanContext>)
    requires |chunks| == 1 && SharesOut(c, chunks)
    ensures chunks == [c]
  {
    WholeSharesOut(chunks[0]);
    assert chunks == [chunks[0]];
  }

  lemma SplitPathIsSound(chunks: seq<ScanContext>, propose: ScanContext -> Outcome, f: Final, scope: string)
    requires AllDecided(propose, chunks) && |chunks| > 1 && Concludes(chunks, propose, f)
    requires forall d :: d in chunks ==> d.ScopeID() == scope
    ensures var answers := Answers(CallAll(propose, chunks));
            && f == (if answers == [] then AllFailed(|chunks|, LastFailure(CallAll(propose, chunks)))
                     else Proposed(Merged(answers)))
            && (answers != [] ==> SoundPlan(Merged(answers), scope))
  {
    var calls := CallAll(propose, chunks);
    var steps, t :| Runs(calls, Init(|calls|), steps, t) && t.returned == Some(f);
    ScheduleIndependent(calls, steps, t);
    FanOutValue(calls);
    AnswersAreDecided(propose, chunks, scope);
    MergedIsSound(Answers(calls), scope);
  }

  /** Without a split the only answer is that of the only call. */
  lemma SingleCall(c: ScanContext, chunks: seq<ScanContext>, propose: ScanContext -> Outcome)
    requires AllDecided(propose, chunks) && chunks == [c]
    ensures Answers(CallAll(propose, chunks)) == if propose(c).Ok? then [propose(c).proposal] else []
    ensures propose(c).Ok? ==> SoundPlan(propose(c).proposal, c.ScopeID())
  {
    var calls := CallAll(propose, chunks);
    assert calls == [propose(c)] && calls[..0] == [];
    assert chunks[0] == c;
  }

  lemma AnswersAreDecided(propose: ScanContext -> Outcome, chunks: seq<ScanContext>, scope: string)
    requires AllDecided(propose, chunks)
    requires forall d :: d in chunks ==> d.ScopeID() == scope
    ensures forall r :: r in Answers(CallAll(propose, chunks)) ==> Decided(Ok(r), scope)
  {
    var calls := CallAll(propose, chunks);
    forall r | r in Answers(calls) ensures Decided(Ok(r), scope) {
      AnswerIsCall(calls, r);
      var i :| 0 <= i < |calls| && calls[i] == Ok(r);
      assert chunks[i] in chunks && calls[i] == propose(chunks[i]);
    }
  }

  lemma {:induction false} AnswerIsCall(calls: seq<Outcome>, r: Proposal)
    requires r in Answers(calls)
    ensures exists i :: 0 <= i < |calls| && calls[i] == Ok(r)
  {
    var n := |calls| - 1;
    if calls[n] != Ok(r) {
      AnswerIsCall(calls[..n], r);
      var i :| 0 <= i < n && calls[..n][i] == Ok(r);
      assert calls[i] == Ok(r);
    }
  }
}
