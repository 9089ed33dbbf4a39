/** The runner daemon's protocol loop (cmd/squadron-action-runner/runner.go): poll, skip what was
    already answered, verify, gate, execute, post. The network is a parameter: each poll fails or
    delivers any list of requests, and each post succeeds or fails. */
module ActionRunner {
  import opened GoStrings
  import opened Signing
  import opened Capabilities

  /** What the runner was configured with. */
  datatype Config = Config(scheme: Scheme, registry: Registry, capabilities: seq<Capability>, dryRunOnly: bool)

  datatype Status = Success | Failure | Denied

  /** A pending request as fetched, the clock when it is handled, what the executor would answer
      (None for a nil result) and whether the post gets through. */
  datatype Delivery = Delivery(request: Request, now: int, answer: Option<Status>, posted: bool) {
    function ID(): string { request.payload.requestID }
  }

  datatype Poll = FetchFailed | Fetched(deliveries: seq<Delivery>)

  datatype Reason = NotDenied | BadSignature(problem: Problem) | DryRunOnly | OutOfPolicy

  /** What the runner does to the outside world, in order. */
  datatype Effect =
    | Executed(request: Request, at: int)
    | Posted(id: string, phase: string, status: Status, reason: Reason, delivered: bool)

  ghost predicate Permitted(c: Config, d: Delivery) {
    && Verify(c.scheme, d.request, d.now).None?
    && !(c.dryRunOnly && d.request.payload.phase == EXECUTE)
    && RunnerAllows(c.registry, c.capabilities, d.request.payload.typ, d.request.payload.parameters)
  }

  /** The one result that is posted for a delivery. */
  ghost function Answered(c: Config, d: Delivery): Effect {
    var p := d.request.payload;
    var problem := Verify(c.scheme, d.request, d.now);
    if problem.Some? then Posted(p.requestID, p.phase, Denied, BadSignature(problem.value), d.posted)
    else if c.dryRunOnly && p.phase == EXECUTE then Posted(p.requestID, p.phase, Denied, DryRunOnly, d.posted)
    else if !Permitted(c, d) then Posted(p.requestID, p.phase, Denied, OutOfPolicy, d.posted)
    else Posted(p.requestID, p.phase, if d.answer.Some? then d.answer.value else Failure, NotDenied, d.posted)
  }

  ghost function HandleEffects(c: Config, d: Delivery): seq<Effect> {
    (if Permitted(c, d) then [Executed(d.request, d.now)] else []) + [Answered(c, d)]
  }

  /** The ids answered so far, and the effects so far. */
  datatype Memory = Memory(seen: set<string>, log: seq<Effect>)

  ghost function AfterDelivery(c: Config, m: Memory, d: Delivery): Memory {
    if d.ID() in m.seen then m else Memory(m.seen + {d.ID()}, m.log + HandleEffects(c, d))
  }

  ghost function AfterDeliveries(c: Config, m: Memory, ds: seq<Delivery>): Memory {
    if ds == [] then m else AfterDelivery(c, AfterDeliveries(c, m, ds[..|ds| - 1]), ds[|ds| - 1])
  }

  ghost function AfterPoll(c: Config, m: Memory, p: Poll): Memory {
    if p.FetchFailed? then m else AfterDeliveries(c, m, p.deliveries)
  }

  ghost function AfterPolls(c: Config, m: Memory, ps: seq<Poll>): Memory {
    if ps == [] then m else AfterPoll(c, AfterPolls(c, m, ps[..|ps| - 1]), ps[|ps| - 1])
  }

  const FRESH: Memory := Memory({}, [])

  class Runner {
    const config: Config
    var seen: set<string>
    var log: seq<Effect>

    constructor (config: Config)
      ensures this.config == config && Remembers() == FRESH
    {
      this.config := config;
      seen := {};
      log := [];
    }

    function Remembers(): Memory
      reads this
    {
      Memory(seen, log)
    }

    /** handleOne */
    method HandleOne(d: Delivery)
      modifies this`log
      ensures log == old(log) + HandleEffects(config, d)
    {
      var wire := d.request;
      var problem := Verify(config.scheme, wire, d.now);
      if problem.Some? {
        PostResult(d, Denied, BadSignature(problem.value));
        return;
      }
      if config.dryRunOnly && wire.payload.phase == EXECUTE {
        PostResult(d, Denied, DryRunOnly);
        return;
      }
      var allowed := ActionAllowed(config.registry, config.capabilities, wire.payload.typ, wire.payload.parameters);
      if !allowed {
        PostResult(d, Denied, OutOfPolicy);
        return;
      }
      log := log + [Executed(wire, d.now)];
      var result := if d.answer.Some? then d.answer.value else Failure;
      PostResult(d, result, NotDenied);
    }

    /** postResult: one attempt, never repeated. */
    method PostResult(d: Delivery, status: Status, reason: Reason)
      modifies this`log
      ensures log == old(log) + [Posted(d.request.payload.requestID, d.request.payload.phase, status, reason, d.posted)]
    {
      log := log + [Posted(d.request.payload.requestID, d.request.payload.phase, status, reason, d.posted)];
    }

    /** tick */
    method Tick(p: Poll)
      modifies this
      ensures Remembers() == AfterPoll(config, old(Remembers()), p)
    {
      if p.FetchFailed? { return; }
      var ds := p.deliveries;
      for i := 0 to |ds|
        invariant Remembers() == AfterDeliveries(config, old(Remembers()), ds[..i])
      {
        DeliveriesSnoc(config, old(Remembers()), ds, i);
        if ds[i].ID() in seen { continue; }
        HandleOne(ds[i]);
        seen := seen + {ds[i].ID()};
      }
      assert ds[..|ds|] == ds;
    }

    /** The polling loop of Run, over any history of polls. */
    method Run(ps: seq<Poll>)
      modifies this
      ensures Remembers() == AfterPolls(config, old(Remembers()), ps)
    {
      for i := 0 to |ps|
        invariant Remembers() == AfterPolls(config, old(Remembers()), ps[..i])
      {
        PollsSnoc(config, old(Remembers()), ps, i);
        Tick(ps[i]);
      }
      assert ps[..|ps|] == ps;
    }
  }

  lemma DeliveriesSnoc(c: Config, m: Memory, ds: seq<Delivery>, i: nat)
    requires i < |ds|
    ensures AfterDeliveries(c, m, ds[..i + 1]) == AfterDelivery(c, AfterDeliveries(c, m, ds[..i]), ds[i])
  {
    assert ds[..i + 1][..i] == ds[..i];
  }

  lemma PollsSnoc(c: Config, m: Memory, ps: seq<Poll>, i: nat)
    requires i < |ps|
    ensures AfterPolls(c, m, ps[..i + 1]) == AfterPoll(c, AfterPolls(c, m, ps[..i]), ps[i])
  {
    assert ps[..i + 1][..i] == ps[..i];
  }

  // ---------------------------------------------------------------- counting effects

  function Executions(log: seq<Effect>, id: string): nat {
    if log == [] then 0
    else Executions(log[..|log| - 1], id) +
         (if log[|log| - 1].Executed? && log[|log| - 1].request.payload.requestID == id then 1 else 0)
  }

  function Posts(log: seq<Effect>, id: string): nat {
    if log == [] then 0
    else Posts(log[..|log| - 1], id) + (if log[|log| - 1].Posted? && log[|log| - 1].id == id then 1 else 0)
  }

  lemma {:induction false} EffectsConcat(a: seq<Effect>, b: seq<Effect>, id: string)
    ensures Executions(a + b, id) == Executions(a, id) + Executions(b, id)
    ensures Posts(a + b, id) == Posts(a, id) + Posts(b, id)
  {
    if b == [] {
      assert a + b == a;
    } else {
      assert (a + b)[..|a + b| - 1] == a + b[..|b| - 1];
      EffectsConcat(a, b[..|b| - 1], id);
    }
  }

  lemma HandleCounts(c: Config, d: Delivery, id: string)
    ensures Posts(HandleEffects(c, d), id) == if d.ID() == id then 1 else 0
    ensures Executions(HandleEffects(c, d), id) == if d.ID() == id && Permitted(c, d) then 1 else 0
  {
    var x: seq<Effect> := if Permitted(c, d) then [Executed(d.request, d.now)] else [];
    var y := [Answered(c, d)];
    EffectsConcat(x, y, id);
    assert y[..0] == [];
    if x != [] { assert x[..0] == []; }
  }

  // ---------------------------------------------------------------- the invariant of every history

  predicate CountedFor(m: Memory, id: string) {
    Posts(m.log, id) == (if id in m.seen then 1 else 0) && Executions(m.log, id) <= Posts(m.log, id)
  }

  ghost predicate Justified(c: Config, m: Memory) {
    forall e :: e in m.log && e.Executed? ==>
      && Verify(c.scheme, e.request, e.at).None?
      && RunnerAllows(c.registry, c.capabilities, e.request.payload.typ, e.request.payload.parameters)
      && !(c.dryRunOnly && e.request.payload.phase == EXECUTE)
  }

  /** Every execution is reported at once, under its own id and phase. */
  ghost predicate Reported(m: Memory) {
    forall i :: 0 <= i < |m.log| && m.log[i].Executed? ==>
      && i + 1 < |m.log| && m.log[i + 1].Posted? && m.log[i + 1].reason == NotDenied
      && m.log[i + 1].id == m.log[i].request.payload.requestID
      && m.log[i + 1].phase == m.log[i].request.payload.phase
  }

  lemma {:induction false} DeliveriesReport(c: Config, m: Memory, ds: seq<Delivery>)
    requires Reported(m)
    ensures Reported(AfterDeliveries(c, m, ds))
  {
    if ds != [] {
      DeliveriesReport(c, m, ds[..|ds| - 1]);
    }
  }

  /** In every history an execution is followed directly by the post of its result. */
  lemma {:induction false} ExecutionsAreReported(c: Config, ps: seq<Poll>)
    ensures Reported(AfterPolls(c, FRESH, ps))
  {
    if ps != [] {
      ExecutionsAreReported(c, ps[..|ps| - 1]);
      if ps[|ps| - 1].Fetched? {
        DeliveriesReport(c, AfterPolls(c, FRESH, ps[..|ps| - 1]), ps[|ps| - 1].deliveries);
      }
    }
  }

  lemma DeliveryCounts(c: Config, m: Memory, d: Delivery, id: string)
    requires CountedFor(m, id)
    ensures CountedFor(AfterDelivery(c, m, d), id)
  {
    if d.ID() !in m.seen {
      EffectsConcat(m.log, HandleEffects(c, d), id);
      HandleCounts(c, d, id);
    }
  }

  lemma {:induction false} DeliveriesCount(c: Config, m: Memory, ds: seq<Delivery>, id: string)
    requires CountedFor(m, id)
    ensures CountedFor(AfterDeliveries(c, m, ds), id)
  {
    if ds != [] {
      DeliveriesCount(c, m, ds[..|ds| - 1], id);
      DeliveryCounts(c, AfterDeliveries(c, m, ds[..|ds| - 1]), ds[|ds| - 1], id);
    }
  }

  lemma {:induction false} DeliveriesJustify(c: Config, m: Memory, ds: seq<Delivery>)
    requires Justified(c, m)
    ensures Justified(c, AfterDeliveries(c, m, ds))
  {
    if ds != [] { DeliveriesJustify(c, m, ds[..|ds| - 1]); }
  }

  lemma {:induction false} DeliveriesSeen(c: Config, m: Memory, ds: seq<Delivery>)
    ensures AfterDeliveries(c, m, ds).seen == m.seen + set d | d in ds :: d.ID()
  {
    if ds != [] {
      var init, l := ds[..|ds| - 1], ds[|ds| - 1];
      DeliveriesSeen(c, m, init);
      assert (set d | d in ds :: d.ID()) == (set d | d in init :: d.ID()) + {l.ID()};
    }
  }

  /** The ids some successful poll delivered. */
  ghost function DeliveredIDs(ps: seq<Poll>): set<string> {
    if ps == [] then {}
    else DeliveredIDs(ps[..|ps| - 1]) +
         (if ps[|ps| - 1].FetchFailed? then {} else set d | d in ps[|ps| - 1].deliveries :: d.ID())
  }

  lemma {:induction false} HistoryCounts(c: Config, ps: seq<Poll>, id: string)
    ensures CountedFor(AfterPolls(c, FRESH, ps), id) && AfterPolls(c, FRESH, ps).seen == DeliveredIDs(ps)
  {
    if ps != [] {
      var init, l := ps[..|ps| - 1], ps[|ps| - 1];
      HistoryCounts(c, init, id);
      if l.Fetched? {
        DeliveriesCount(c, AfterPolls(c, FRESH, init), l.deliveries, id);
        DeliveriesSeen(c, AfterPolls(c, FRESH, init), l.deliveries);
      }
    }
  }

  lemma {:induction false} HistoryJustifies(c: Config, ps: seq<Poll>)
    ensures Justified(c, AfterPolls(c, FRESH, ps))
  {
    if ps != [] {
      var init, l := ps[..|ps| - 1], ps[|ps| - 1];
      HistoryJustifies(c, init);
      if l.Fetched? { DeliveriesJustify(c, AfterPolls(c, FRESH, init), l.deliveries); }
    }
  }

  // ---------------------------------------------------------------- the theorems

  /** Over every history of polls, with any duplicates, failed fetches and failed posts: each id is
      executed at most once, and gets exactly one post attempt if it was ever delivered. */
  lemma AtMostOnce(c: Config, ps: seq<Poll>, id: string)
    ensures var log := AfterPolls(c, FRESH, ps).log;
            && Posts(log, id) == (if id in DeliveredIDs(ps) then 1 else 0)
            && Executions(log, id) <= Posts(log, id)
  {
    HistoryCounts(c, ps, id);
  }

  /** Whatever was executed had a valid signature and a local capability; on a dry-run-only node it
      was not an execute request, and when only the two known phases are delivered it was a dry run. */
  lemma ExecutedWasPermitted(c: Config, ps: seq<Poll>, e: Effect)
    requires e in AfterPolls(c, FRESH, ps).log && e.Executed?
    ensures Verify(c.scheme, e.request, e.at).None?
    ensures RunnerAllows(c.registry, c.capabilities, e.request.payload.typ, e.request.payload.parameters)
    ensures c.dryRunOnly ==> e.request.payload.phase != EXECUTE
    ensures c.dryRunOnly && e.request.payload.phase in {DRY_RUN, EXECUTE} ==> e.request.payload.phase == DRY_RUN
  {
    HistoryJustifies(c, ps);
  }

  /** The executor treats every phase but dry_run as a real action, and the gate only stops execute.
      So a dry-run-only node keeps its promise for a request it could otherwise run if and only if
      the request's phase is one of the two known ones. */
  lemma DryRunOnlyHoldsExactly(c: Config, d: Delivery)
    requires c.dryRunOnly && Permitted(c.(dryRunOnly := false), d)
    ensures (Executed(d.request, d.now) in HandleEffects(c, d) ==> d.request.payload.phase == DRY_RUN) <==>
            d.request.payload.phase == DRY_RUN || d.request.payload.phase == EXECUTE
  {
  }

  // ---------------------------------------------------------------- what is posted

  /** Everything that was delivered, in order. */
  ghost function AllDeliveries(ps: seq<Poll>): seq<Delivery> {
    if ps == [] then []
    else AllDeliveries(ps[..|ps| - 1]) + (if ps[|ps| - 1].Fetched? then ps[|ps| - 1].deliveries else [])
  }

  /** The first delivery of its id; the later ones are passed over. */
  ghost predicate IsFirst(ds: seq<Delivery>, i: nat) {
    i < |ds| && forall j :: 0 <= j < i ==> ds[j].ID() != ds[i].ID()
  }

  /** The post at k is what the delivery calls for: it says why it was denied, or it comes right after
      the execution and carries the executor's answer, which is a failure when there was none. */
  predicate Answers(c: Config, log: seq<Effect>, k: nat, d: Delivery)
    requires k < |log| && log[k].Posted?
  {
    var post, p, problem := log[k], d.request.payload, Verify(c.scheme, d.request, d.now);
    && post.id == d.ID() && post.phase == p.phase && post.delivered == d.posted
    && match post.reason
       case NotDenied =>
         k > 0 && log[k - 1] == Executed(d.request, d.now) &&
           post.status == (if d.answer.None? then Failure else d.answer.value)
       case BadSignature(why) => post.status == Denied && problem == Some(why)
       case DryRunOnly => post.status == Denied && problem.None? && c.dryRunOnly && p.phase == EXECUTE
       case OutOfPolicy => post.status == Denied && problem.None? && !(c.dryRunOnly && p.phase == EXECUTE)
  }

  /** The post says out of policy only when no local capability allows the action. */
  ghost predicate FitsPolicy(c: Config, post: Effect, d: Delivery)
    requires post.Posted?
  {
    var allowed := RunnerAllows(c.registry, c.capabilities, d.request.payload.typ, d.request.payload.parameters);
    (post.reason == OutOfPolicy ==> !allowed) && (post.reason == NotDenied ==> allowed)
  }

  /** The post at k tells what happened to some first delivery. */
  ghost predicate Accounted(c: Config, log: seq<Effect>, k: nat, ds: seq<Delivery>)
    requires k < |log| && log[k].Posted?
  {
    exists i: nat :: IsFirst(ds, i) && Answers(c, log, k, ds[i]) && FitsPolicy(c, log[k], ds[i])
  }

  ghost predicate AllAccounted(c: Config, m: Memory, ds: seq<Delivery>) {
    && (forall k: nat :: k < |m.log| && m.log[k].Posted? ==> Accounted(c, m.log, k, ds))
    && (forall d :: d in ds ==> d.ID() in m.seen)
    && (forall id :: id in m.seen ==> exists d :: d in ds && d.ID() == id)
  }

  lemma StillAccounted(c: Config, log: seq<Effect>, more: seq<Effect>, k: nat, ds: seq<Delivery>, d: Delivery)
    requires k < |log| && log[k].Posted? && Accounted(c, log, k, ds)
    ensures Accounted(c, log + more, k, ds + [d])
  {
    var i: nat :| IsFirst(ds, i) && Answers(c, log, k, ds[i]) && FitsPolicy(c, log[k], ds[i]);
    assert IsFirst(ds + [d], i) && (ds + [d])[i] == ds[i];
    assert Answers(c, log + more, k, ds[i]);
  }

  lemma NewAccounted(c: Config, log: seq<Effect>, ds: seq<Delivery>, d: Delivery, k: nat)
    requires forall e :: e in ds ==> e.ID() != d.ID()
    requires var all := log + HandleEffects(c, d); |log| <= k < |all| && all[k].Posted?
    ensures Accounted(c, log + HandleEffects(c, d), k, ds + [d])
  {
    var all, n := log + HandleEffects(c, d), |ds|;
    assert all[k] == Answered(c, d) && (Permitted(c, d) ==> k > 0 && all[k - 1] == Executed(d.request, d.now));
    assert IsFirst(ds + [d], n) && (ds + [d])[n] == d;
    assert Answers(c, all, k, d) && FitsPolicy(c, all[k], d);
  }

  lemma DeliveryAccounted(c: Config, m: Memory, ds: seq<Delivery>, d: Delivery)
    requires AllAccounted(c, m, ds)
    ensures AllAccounted(c, AfterDelivery(c, m, d), ds + [d])
  {
    var m' := AfterDelivery(c, m, d);
    forall k: nat | k < |m'.log| && m'.log[k].Posted? ensures Accounted(c, m'.log, k, ds + [d]) {
      if k < |m.log| {
        StillAccounted(c, m.log, m'.log[|m.log|..], k, ds, d);
        assert m'.log == m.log + m'.log[|m.log|..];
      } else {
        NewAccounted(c, m.log, ds, d, k);
      }
    }
    forall id | id in m'.seen ensures exists e :: e in ds + [d] && e.ID() == id {
      if id != d.ID() {
        var e :| e in ds && e.ID() == id;
        assert e in ds + [d];
      } else {
        assert d in ds + [d];
      }
    }
  }

  lemma {:induction false} DeliveriesAccounted(c: Config, m: Memory, before: seq<Delivery>, ds: seq<Delivery>)
    requires AllAccounted(c, m, before)
    ensures AllAccounted(c, AfterDeliveries(c, m, ds), before + ds)
  {
    if ds == [] {
      assert before + ds == before;
    } else {
      var init, l := ds[..|ds| - 1], ds[|ds| - 1];
      DeliveriesAccounted(c, m, before, init);
      DeliveryAccounted(c, AfterDeliveries(c, m, init), before + init, l);
      assert before + ds == before + init + [l];
    }
  }

  lemma {:induction false} HistoryAccounted(c: Config, ps: seq<Poll>)
    ensures AllAccounted(c, AfterPolls(c, FRESH, ps), AllDeliveries(ps))
  {
    if ps != [] {
      var init, l := ps[..|ps| - 1], ps[|ps| - 1];
      HistoryAccounted(c, init);
      if l.Fetched? {
        DeliveriesAccounted(c, AfterPolls(c, FRESH, init), AllDeliveries(init), l.deliveries);
      } else {
        assert AllDeliveries(init) + [] == AllDeliveries(init);
      }
    }
  }

  /** Over every history, every post tells what happened to the first delivery of its id. One that was
      not denied comes right after the execution and carries the executor's own answer, or a failure
      when there was none; every other one is a denial, with the true reason. */
  lemma PostsTellTheTruth(c: Config, ps: seq<Poll>, k: nat)
    requires var log := AfterPolls(c, FRESH, ps).log; k < |log| && log[k].Posted?
    ensures Accounted(c, AfterPolls(c, FRESH, ps).log, k, AllDeliveries(ps))
  {
    HistoryAccounted(c, ps);
  }

  /** The requests some successful poll delivered. */
  ghost function DeliveredRequests(ps: seq<Poll>): set<Request> {
    set i, j | 0 <= i < |ps| && ps[i].Fetched? && 0 <= j < |ps[i].deliveries| :: ps[i].deliveries[j].request
  }

  ghost predicate FromDeliveries(m: Memory, requests: set<Request>) {
    forall e :: e in m.log && e.Executed? ==> e.request in requests
  }

  lemma {:induction false} DeliveriesProvide(c: Config, m: Memory, ds: seq<Delivery>, requests: set<Request>)
    requires FromDeliveries(m, requests) && forall d :: d in ds ==> d.request in requests
    ensures FromDeliveries(AfterDeliveries(c, m, ds), requests)
  {
    if ds != [] { DeliveriesProvide(c, m, ds[..|ds| - 1], requests); }
  }

  /** Nothing is executed but what was delivered. */
  lemma ExecutedWasDelivered(c: Config, ps: seq<Poll>, e: Effect)
    requires e in AfterPolls(c, FRESH, ps).log && e.Executed?
    ensures e.request in DeliveredRequests(ps)
  {
    PollsProvide(c, ps, DeliveredRequests(ps));
  }

  lemma {:induction false} PollsProvide(c: Config, ps: seq<Poll>, requests: set<Request>)
    requires DeliveredRequests(ps) <= requests
    ensures FromDeliveries(AfterPolls(c, FRESH, ps), requests)
  {
    if ps != [] {
      var init, l := ps[..|ps| - 1], ps[|ps| - 1];
      assert DeliveredRequests(init) <= DeliveredRequests(ps);
      PollsProvide(c, init, requests);
      if l.Fetched? {
        forall d | d in l.deliveries ensures d.request in requests { assert d.request in DeliveredRequests(ps); }
        DeliveriesProvide(c, AfterPolls(c, FRESH, init), l.deliveries, requests);
      }
    }
  }

  /** When no delivered request is a forgery, everything executed in any history was signed by the
      control plane, in that phase; a request signed with zero times is never executed later than
      five minutes after its issue time, and one signed as dry_run is never executed as anything
      else. */
  lemma ExecutedWasSignedRecently(c: Config, journal: seq<SignCall>, ps: seq<Poll>, e: Effect) returns (k: nat)
    requires Faithful(c.scheme) && forall r :: r in DeliveredRequests(ps) ==> Unforged(c.scheme, journal, r)
    requires e in AfterPolls(c, FRESH, ps).log && e.Executed?
    ensures k < |journal|
    ensures var call := journal[k];
            && e.request.payload.requestID == call.request.payload.requestID
            && e.request.payload.runnerID == call.request.payload.runnerID
            && e.request.payload.typ == call.request.payload.typ
            && e.request.payload.phase == call.request.payload.phase
            && (call.request.payload.issuedAt == call.request.payload.expiresAt == 0 && call.clock > 0 ==>
                  e.at <= e.request.payload.issuedAt + FIVE_MINUTES && e.request.payload.issuedAt == call.clock)
  {
    ExecutedWasPermitted(c, ps, e);
    ExecutedWasDelivered(c, ps, e);
    k := VerifiedWasSigned(c.scheme, journal, e.request, e.at);
  }

  /** The signature gate lets through exactly what it should, under a scheme whose own signatures
      are valid: among requests that are the control plane's own or whose signature is not valid at
      all, a fresh delivery is executed if and only if it was signed, has not expired, and passes the
      two local gates. No such delivery counts as a forgery. */
  lemma ExecutesExactlyTheSigned(c: Config, journal: seq<SignCall>, d: Delivery)
    requires Correct(c.scheme)
    requires var r := d.request;
             SignedBy(c.scheme, journal, r) || c.scheme.encode(r.payload).None? ||
             !c.scheme.valid(c.scheme.encode(r.payload).value, r.signature)
    ensures Unforged(c.scheme, journal, d.request)
    ensures var p := d.request.payload;
            Executed(d.request, d.now) in HandleEffects(c, d) <==>
              && SignedBy(c.scheme, journal, d.request) && (p.expiresAt == 0 || d.now <= p.expiresAt)
              && !(c.dryRunOnly && p.phase == EXECUTE)
              && RunnerAllows(c.registry, c.capabilities, p.typ, p.parameters)
  {
    var s, r := c.scheme, d.request;
    if SignedBy(s, journal, r) {
      var k: nat :| k < |journal| && Issued(s, journal[k]) == Some(r);
      SignedVerifies(s, journal[k].request.payload, journal[k].clock, d.now);
    }
  }
}
