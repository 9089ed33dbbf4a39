/** The data side of the chunked discovery proposer (internal/ai/proposer_discovery_chunk.go and
    proposer_discovery.go): split an inventory by tier, decide on one reply, merge the replies. */
module DiscoveryPlan {
  import opened GoStrings

  /** DiscoveryScanContext. `rest` stands for the remaining fields, which are only ever copied. */
  datatype ScanContext = ScanContext(
    provider: string, accountID: string, projectID: string, subscriptionID: string, tenancyOCID: string, rest: string,
    compute: seq<string>, functions: seq<string>, databases: seq<string>, objectStores: seq<string>,
    loadBalancers: seq<string>, clusters: seq<string>, dynamoTables: seq<string>, ecsClusters: seq<string>,
    eventSources: seq<string>)
  {
    /** The account, project, subscription or tenancy, by provider; AWS is the default. */
    function ScopeID(): string {
      match provider
      case "gcp" => projectID
      case "azure" => subscriptionID
      case "oci" => tenancyOCID
      case _ => accountID
    }
  }

  /** The scope of each provider. */
  lemma KnownScopes(c: ScanContext)
    ensures c.(provider := "gcp").ScopeID() == c.projectID
    ensures c.(provider := "azure").ScopeID() == c.subscriptionID
    ensures c.(provider := "oci").ScopeID() == c.tenancyOCID
    ensures c.provider !in {"gcp", "azure", "oci"} ==> c.ScopeID() == c.accountID
  {
  }

  const TIERS: nat := 9

  /** The k-th tier, in the order the source walks them. */
  function Tier(c: ScanContext, k: nat): seq<string>
    requires k < TIERS
  {
    match k
    case 0 => c.compute
    case 1 => c.functions
    case 2 => c.databases
    case 3 => c.objectStores
    case 4 => c.loadBalancers
    case 5 => c.clusters
    case 6 => c.dynamoTables
    case 7 => c.ecsClusters
    case _ => c.eventSources
  }

  function WithTier(c: ScanContext, k: nat, t: seq<string>): ScanContext
    requires k < TIERS
  {
    match k
    case 0 => c.(compute := t)
    case 1 => c.(functions := t)
    case 2 => c.(databases := t)
    case 3 => c.(objectStores := t)
    case 4 => c.(loadBalancers := t)
    case 5 => c.(clusters := t)
    case 6 => c.(dynamoTables := t)
    case 7 => c.(ecsClusters := t)
    case _ => c.(eventSources := t)
  }

  function Strip(c: ScanContext): ScanContext {
    c.(compute := [], functions := [], databases := [], objectStores := [], loadBalancers := [], clusters := [],
       dynamoTables := [], ecsClusters := [], eventSources := [])
  }

  /** The chunk for one tier. */
  function Only(c: ScanContext, k: nat): ScanContext
    requires k < TIERS
  {
    WithTier(Strip(c), k, Tier(c, k))
  }

  // ---------------------------------------------------------------- splitting

  /** The non-empty tiers among the first k. */
  function TierCount(c: ScanContext, k: nat): nat
    requires k <= TIERS
  {
    if k == 0 then 0 else TierCount(c, k - 1) + (if Tier(c, k - 1) != [] then 1 else 0)
  }

  function ResourceCount(c: ScanContext, k: nat): nat
    requires k <= TIERS
  {
    if k == 0 then 0 else ResourceCount(c, k - 1) + |Tier(c, k - 1)|
  }

  /** One chunk for each non-empty tier among the first k. */
  function Split(c: ScanContext, k: nat): seq<ScanContext>
    requires k <= TIERS
  {
    if k == 0 then [] else Split(c, k - 1) + (if Tier(c, k - 1) != [] then [Only(c, k - 1)] else [])
  }

  /** The tiers that have resources. */
  function FullTiers(c: ScanContext): set<nat> { set k: nat | k < TIERS && Tier(c, k) != [] }

  function Resources(c: ScanContext): nat {
    |c.compute| + |c.functions| + |c.databases| + |c.objectStores| + |c.loadBalancers| + |c.clusters| +
    |c.dynamoTables| + |c.ecsClusters| + |c.eventSources|
  }

  lemma {:induction false} TierCountIs(c: ScanContext, k: nat)
    requires k <= TIERS
    ensures TierCount(c, k) == |set u: nat | u < k && Tier(c, u) != []|
  {
    if k > 0 {
      TierCountIs(c, k - 1);
      var small := set u: nat | u < k - 1 && Tier(c, u) != [];
      var big := set u: nat | u < k && Tier(c, u) != [];
      TierSetStep(c, small, big, k - 1);
    }
  }

  lemma TierSetStep(c: ScanContext, small: set<nat>, big: set<nat>, k: nat)
    requires k < TIERS && forall u: nat :: u in small <==> u < k && Tier(c, u) != []
    requires forall u: nat :: u in big <==> u < k + 1 && Tier(c, u) != []
    ensures |big| == |small| + (if Tier(c, k) != [] then 1 else 0)
  {
    assert big == if Tier(c, k) != [] then small + {k} else small;
  }

  /** The closure `add` of discoveryInventorySize. */
  method Add(tiers: nat, resources: nat, n: nat) returns (tiers': nat, resources': nat)
    ensures tiers' == tiers + (if n > 0 then 1 else 0) && resources' == resources + n
  {
    tiers', resources' := tiers, resources;
    if n > 0 {
      tiers', resources' := tiers + 1, resources + n;
    }
  }

  /** discoveryInventorySize */
  method InventorySize(c: ScanContext) returns (tiers: nat, resources: nat)
    ensures tiers == TierCount(c, TIERS) == |FullTiers(c)|
    ensures resources == ResourceCount(c, TIERS) == Resources(c)
  {
    TierCountIs(c, TIERS);
    tiers, resources := 0, 0;
    tiers, resources := Add(tiers, resources, |c.compute|);
    assert tiers == TierCount(c, 1) && resources == ResourceCount(c, 1);
    tiers, resources := Add(tiers, resources, |c.functions|);
    assert tiers == TierCount(c, 2) && resources == ResourceCount(c, 2);
    tiers, resources := Add(tiers, resources, |c.databases|);
    assert tiers == TierCount(c, 3) && resources == ResourceCount(c, 3);
    tiers, resources := Add(tiers, resources, |c.objectStores|);
    assert tiers == TierCount(c, 4) && resources == ResourceCount(c, 4);
    tiers, resources := Add(tiers, resources, |c.loadBalancers|);
    assert tiers == TierCount(c, 5) && resources == ResourceCount(c, 5);
    tiers, resources := Add(tiers, resources, |c.clusters|);
    assert tiers == TierCount(c, 6) && resources == ResourceCount(c, 6);
    tiers, resources := Add(tiers, resources, |c.dynamoTables|);
    assert tiers == TierCount(c, 7) && resources == ResourceCount(c, 7);
    tiers, resources := Add(tiers, resources, |c.ecsClusters|);
    assert tiers == TierCount(c, 8) && resources == ResourceCount(c, 8);
    tiers, resources := Add(tiers, resources, |c.eventSources|);
    assert tiers == TierCount(c, 9) && resources == ResourceCount(c, 9);
  }

  /** splitDiscoveryByTier */
  method SplitByTier(c: ScanContext) returns (out: seq<ScanContext>)
    ensures out == Split(c, TIERS)
  {
    out := SplitHosts(c);
    out := SplitPlatforms(c, out);
    out := SplitServices(c, out);
  }

  /** The blocks for tiers 0 to 2. */
  method SplitHosts(c: ScanContext) returns (out: seq<ScanContext>)
    ensures out == Split(c, 3)
  {
    var base := Strip(c);
    out := [];
    ghost var k: nat := 0;
    if |c.compute| > 0 { out := out + [base.(compute := c.compute)]; }
    k := SplitStep(c, k, out);
    if |c.functions| > 0 { out := out + [base.(functions := c.functions)]; }
    k := SplitStep(c, k, out);
    if |c.databases| > 0 { out := out + [base.(databases := c.databases)]; }
    k := SplitStep(c, k, out);
  }

  /** The blocks for tiers 3 to 5. */
  method SplitPlatforms(c: ScanContext, before: seq<ScanContext>) returns (out: seq<ScanContext>)
    requires before == Split(c, 3)
    ensures out == Split(c, 6)
  {
    var base := Strip(c);
    out := before;
    ghost var k: nat := 3;
    if |c.objectStores| > 0 { out := out + [base.(objectStores := c.objectStores)]; }
    k := SplitStep(c, k, out);
    if |c.loadBalancers| > 0 { out := out + [base.(loadBalancers := c.loadBalancers)]; }
    k := SplitStep(c, k, out);
    if |c.clusters| > 0 { out := out + [base.(clusters := c.clusters)]; }
    k := SplitStep(c, k, out);
  }

  /** The blocks for tiers 6 to 8. */
  method SplitServices(c: ScanContext, before: seq<ScanContext>) returns (out: seq<ScanContext>)
    requires before == Split(c, 6)
    ensures out == Split(c, 9)
  {
    var base := Strip(c);
    out := before;
    ghost var k: nat := 6;
    if |c.dynamoTables| > 0 { out := out + [base.(dynamoTables := c.dynamoTables)]; }
    k := SplitStep(c, k, out);
    if |c.ecsClusters| > 0 { out := out + [base.(ecsClusters := c.ecsClusters)]; }
    k := SplitStep(c, k, out);
    if |c.eventSources| > 0 { out := out + [base.(eventSources := c.eventSources)]; }
    k := SplitStep(c, k, out);
  }

  /** One `if` of the split, against the specification. */
  lemma SplitStep(c: ScanContext, k: nat, out: seq<ScanContext>) returns (k': nat)
    requires k < TIERS
    requires out == if Tier(c, k) != [] then Split(c, k) + [Only(c, k)] else Split(c, k)
    ensures k' == k + 1 && out == Split(c, k')
  {
    k' := k + 1;
  }

  /** The order of the tiers, on an inventory that has them all. */
  lemma FullSplit(c: ScanContext)
    requires forall k: nat :: k < TIERS ==> Tier(c, k) != []
    ensures var bare := Strip(c);
            Split(c, TIERS) ==
            [bare.(compute := c.compute), bare.(functions := c.functions), bare.(databases := c.databases),
             bare.(objectStores := c.objectStores), bare.(loadBalancers := c.loadBalancers),
             bare.(clusters := c.clusters), bare.(dynamoTables := c.dynamoTables),
             bare.(ecsClusters := c.ecsClusters), bare.(eventSources := c.eventSources)]
  {
    SplitHostsFull(c);
    SplitPlatformsFull(c);
    SplitServicesFull(c);
  }

  lemma SplitHostsFull(c: ScanContext)
    requires Tier(c, 0) != [] && Tier(c, 1) != [] && Tier(c, 2) != []
    ensures var bare := Strip(c);
            Split(c, 3) ==
            [bare.(compute := c.compute), bare.(functions := c.functions), bare.(databases := c.databases)]
  {
    assert Split(c, 1) == [Only(c, 0)];
    assert Split(c, 2) == [Only(c, 0), Only(c, 1)];
    assert Split(c, 3) == [Only(c, 0), Only(c, 1), Only(c, 2)];
  }

  lemma SplitPlatformsFull(c: ScanContext)
    requires Tier(c, 3) != [] && Tier(c, 4) != [] && Tier(c, 5) != []
    ensures var bare := Strip(c);
            Split(c, 6) == Split(c, 3) + [bare.(objectStores := c.objectStores),
                                          bare.(loadBalancers := c.loadBalancers), bare.(clusters := c.clusters)]
  {
    assert Split(c, 4) == Split(c, 3) + [Only(c, 3)];
    assert Split(c, 5) == Split(c, 3) + [Only(c, 3), Only(c, 4)];
    assert Split(c, 6) == Split(c, 3) + [Only(c, 3), Only(c, 4), Only(c, 5)];
  }

  lemma SplitServicesFull(c: ScanContext)
    requires Tier(c, 6) != [] && Tier(c, 7) != [] && Tier(c, 8) != []
    ensures var bare := Strip(c);
            Split(c, 9) == Split(c, 6) + [bare.(dynamoTables := c.dynamoTables),
                                          bare.(ecsClusters := c.ecsClusters), bare.(eventSources := c.eventSources)]
  {
    assert Split(c, 7) == Split(c, 6) + [Only(c, 6)];
    assert Split(c, 8) == Split(c, 6) + [Only(c, 6), Only(c, 7)];
    assert Split(c, 9) == Split(c, 6) + [Only(c, 6), Only(c, 7), Only(c, 8)];
  }

  /** Puts the inventory of `d` behind that of `c`, tier by tier. */
  function Absorb(c: ScanContext, d: ScanContext): ScanContext {
    c.(compute := c.compute + d.compute, functions := c.functions + d.functions, databases := c.databases + d.databases,
       objectStores := c.objectStores + d.objectStores, loadBalancers := c.loadBalancers + d.loadBalancers,
       clusters := c.clusters + d.clusters, dynamoTables := c.dynamoTables + d.dynamoTables,
       ecsClusters := c.ecsClusters + d.ecsClusters, eventSources := c.eventSources + d.eventSources)
  }

  function AbsorbAll(c: ScanContext, chunks: seq<ScanContext>): ScanContext {
    if chunks == [] then c else Absorb(AbsorbAll(c, chunks[..|chunks| - 1]), chunks[|chunks| - 1])
  }

  /** The tiers before k, the later ones emptied. */
  function Before(c: ScanContext, k: nat): ScanContext {
    c.(compute := if k > 0 then c.compute else [], functions := if k > 1 then c.functions else [],
       databases := if k > 2 then c.databases else [], objectStores := if k > 3 then c.objectStores else [],
       loadBalancers := if k > 4 then c.loadBalancers else [], clusters := if k > 5 then c.clusters else [],
       dynamoTables := if k > 6 then c.dynamoTables else [], ecsClusters := if k > 7 then c.ecsClusters else [],
       eventSources := if k > 8 then c.eventSources else [])
  }

  lemma BeforeTier(c: ScanContext, k: nat)
    requires k < TIERS
    ensures Before(c, k + 1) == if Tier(c, k) != [] then Absorb(Before(c, k), Only(c, k)) else Before(c, k)
  {
    var b, b', d := Before(c, k), Before(c, k + 1), Absorb(Before(c, k), Only(c, k));
    forall u: nat | u < TIERS ensures Tier(d, u) == Tier(b', u) && (Tier(c, k) == [] ==> Tier(b, u) == Tier(b', u)) {
      TierOfBefore(c, k, u);
      TierOfBefore(c, k + 1, u);
      TierOfAbsorb(b, Only(c, k), u);
      TierOfOnly(c, k, u);
    }
    SameTiers(d, b');
    if Tier(c, k) == [] { SameTiers(b, b'); }
  }

  lemma TierOfBefore(c: ScanContext, k: nat, u: nat)
    requires u < TIERS
    ensures Tier(Before(c, k), u) == if u < k then Tier(c, u) else []
  {
  }

  lemma TierOfAbsorb(c: ScanContext, d: ScanContext, u: nat)
    requires u < TIERS
    ensures Tier(Absorb(c, d), u) == Tier(c, u) + Tier(d, u)
  {
  }

  lemma TierOfOnly(c: ScanContext, k: nat, u: nat)
    requires k < TIERS && u < TIERS
    ensures Tier(Only(c, k), u) == if u == k then Tier(c, k) else []
  {
  }

  lemma SameTiers(c: ScanContext, d: ScanContext)
    requires Strip(c) == Strip(d) && forall u: nat :: u < TIERS ==> Tier(c, u) == Tier(d, u)
    ensures c == d
  {
    assert Tier(c, 0) == Tier(d, 0) && Tier(c, 1) == Tier(d, 1) && Tier(c, 2) == Tier(d, 2);
    assert Tier(c, 3) == Tier(d, 3) && Tier(c, 4) == Tier(d, 4) && Tier(c, 5) == Tier(d, 5);
    assert Tier(c, 6) == Tier(d, 6) && Tier(c, 7) == Tier(d, 7) && Tier(c, 8) == Tier(d, 8);
  }

  /** Splitting loses nothing and invents nothing: absorbing the chunks into the bare context gives
      the original back. */
  lemma SplitConserves(c: ScanContext)
    ensures AbsorbAll(Strip(c), Split(c, TIERS)) == c
  {
    AbsorbUpTo(c, TIERS);
  }

  lemma {:induction false} AbsorbUpTo(c: ScanContext, k: nat)
    requires k <= TIERS
    ensures AbsorbAll(Strip(c), Split(c, k)) == Before(c, k)
  {
    if k > 0 {
      AbsorbUpTo(c, k - 1);
      BeforeTier(c, k - 1);
      AbsorbOne(Strip(c), Split(c, k - 1), Only(c, k - 1), Tier(c, k - 1) != [], Before(c, k - 1), Before(c, k));
    }
  }

  lemma AbsorbOne(bare: ScanContext, chunks: seq<ScanContext>, d: ScanContext, keep: bool, b: ScanContext,
                  b': ScanContext)
    requires AbsorbAll(bare, chunks) == b && b' == if keep then Absorb(b, d) else b
    ensures AbsorbAll(bare, chunks + if keep then [d] else []) == b'
  {
    assert chunks + [] == chunks;
  }

  /** Every chunk is one whole non-empty tier of the input, every other tier of it is empty, and
      every other field, the scope id among them, is unchanged. There are as many chunks as tiers, in
      tier order: `ts` says which tier each chunk is. */
  lemma {:induction false} SplitChunks(c: ScanContext, k: nat) returns (ts: seq<nat>)
    requires k <= TIERS
    ensures |Split(c, k)| == TierCount(c, k) == |ts|
    ensures forall i :: 0 <= i < |ts| ==> ts[i] < k && IsTierChunk(c, Split(c, k)[i], ts[i])
    ensures forall i, j :: 0 <= i < j < |ts| ==> ts[i] < ts[j]
  {
    ts := [];
    if k > 0 {
      ts := SplitChunks(c, k - 1);
      if Tier(c, k - 1) != [] {
        OnlyIsTierChunk(c, k - 1);
        ts := OneMoreChunk(c, Split(c, k - 1), ts, Only(c, k - 1), k - 1);
      }
    }
  }

  lemma OneMoreChunk(c: ScanContext, chunks: seq<ScanContext>, ts: seq<nat>, d: ScanContext, k: nat)
    returns (more: seq<nat>)
    requires k < TIERS && |chunks| == |ts| && IsTierChunk(c, d, k)
    requires forall i :: 0 <= i < |ts| ==> ts[i] < k && IsTierChunk(c, chunks[i], ts[i])
    requires forall i, j :: 0 <= i < j < |ts| ==> ts[i] < ts[j]
    ensures |more| == |ts| + 1
    ensures forall i :: 0 <= i < |more| ==> more[i] < k + 1 && IsTierChunk(c, (chunks + [d])[i], more[i])
    ensures forall i, j :: 0 <= i < j < |more| ==> more[i] < more[j]
  {
    more := ts + [k];
  }

  lemma OnlyIsTierChunk(c: ScanContext, k: nat)
    requires k < TIERS && Tier(c, k) != []
    ensures IsTierChunk(c, Only(c, k), k)
  {
    forall u: nat | u < TIERS ensures Tier(Only(c, k), u) == if u == k then Tier(c, k) else [] { TierOfOnly(c, k, u); }
  }

  ghost predicate IsTierChunk(c: ScanContext, d: ScanContext, t: nat)
    requires t < TIERS
  {
    && Tier(d, t) == Tier(c, t) != []
    && (forall u: nat :: u < TIERS && u != t ==> Tier(d, u) == [])
    && Strip(d) == Strip(c) && d.ScopeID() == c.ScopeID()
  }

  // ---------------------------------------------------------------- one reply

  datatype PlanStep = PlanStep(groupID: string, snippet: string)

  datatype Proposal = Proposal(
    declined: bool, reason: string, kind: string, steps: seq<PlanStep>, reasoning: string,
    evidence: seq<string>, model: string, tokensIn: int, tokensOut: int)

  datatype Outcome = Ok(proposal: Proposal) | Err(error: string)

  /** What the model's reply parsed to, with the usage the provider reported. */
  datatype Reply = Reply(
    declined: bool, reason: string, kind: string, steps: seq<PlanStep>, reasoning: string,
    evidence: seq<string>, model: string, tokensIn: int, tokensOut: int)

  predicate GoodStep(s: PlanStep, scope: string) {
    s.groupID != "" && s.groupID == scope && TrimSpace(s.snippet) != ""
  }

  /** What validateDiscoveryPlan accepts. */
  predicate ValidPlan(steps: seq<PlanStep>, scope: string) {
    0 < |steps| <= 10 && forall s :: s in steps ==> GoodStep(s, scope)
  }

  /** validateDiscoveryPlan: None, or the first problem. */
  method ValidateDiscoveryPlan(steps: seq<PlanStep>, scope: string) returns (problem: Option<string>)
    ensures problem.None? <==> ValidPlan(steps, scope)
    ensures problem.None? <==> 1 <= |steps| <= 10 && forall s :: s in steps ==>
                                 s.groupID == scope && scope != "" && TrimSpace(s.snippet) != ""
  {
    if |steps| == 0 { return Some("plan has no steps"); }
    if |steps| > 10 { return Some("too many steps"); }
    for i := 0 to |steps|
      invariant forall j :: 0 <= j < i ==> GoodStep(steps[j], scope)
    {
      assert steps[i] in steps;
      if steps[i].groupID == "" { return Some("missing group_id"); }
      if steps[i].groupID != scope { return Some("group_id does not match scope_id"); }
      if TrimSpace(steps[i].snippet) == "" { return Some("missing inline_config_snippet"); }
    }
    return None;
  }

  /** A decided outcome: nothing is planned when declined, otherwise a valid plan for the scope. */
  predicate Decided(o: Outcome, scope: string) {
    o.Ok? ==>
      if o.proposal.declined then o.proposal.steps == []
      else ValidPlan(o.proposal.steps, scope) && o.proposal.kind == "plan"
  }

  /** The decision part of proposeDiscoveryChunk. */
  method DecideChunk(p: Reply, scope: string) returns (o: Outcome)
    ensures Decided(o, scope)
    ensures o.Err? <==> !p.declined && ((p.kind != "plan" && p.kind != "") || !ValidPlan(p.steps, scope))
    ensures o.Ok? ==> o.proposal == Proposal(
      p.declined, TrimSpace(p.reason), if p.declined then p.kind else "plan", if p.declined then [] else p.steps,
      TrimSpace(p.reasoning), p.evidence, p.model, p.tokensIn, p.tokensOut)
  {
    var result := Proposal(p.declined, TrimSpace(p.reason), p.kind, [], TrimSpace(p.reasoning), p.evidence, p.model,
                           p.tokensIn, p.tokensOut);
    if p.declined { return Ok(result); }
    var kind := p.kind;
    if kind == "" {
      kind := if |p.steps| > 0 then "plan" else "rollout";
    }
    if kind != "plan" { return Err("discovery is plan-only"); }
    result := result.(kind := "plan", steps := p.steps);
    var problem := ValidateDiscoveryPlan(p.steps, scope);
    if problem.Some? { return Err(problem.value); }
    return Ok(result);
  }

  // ---------------------------------------------------------------- merging

  function SumIn(rs: seq<Proposal>): int { if rs == [] then 0 else SumIn(rs[..|rs| - 1]) + rs[|rs| - 1].tokensIn }

  function SumOut(rs: seq<Proposal>): int { if rs == [] then 0 else SumOut(rs[..|rs| - 1]) + rs[|rs| - 1].tokensOut }

  function AllSteps(rs: seq<Proposal>): seq<PlanStep> {
    if rs == [] then [] else AllSteps(rs[..|rs| - 1]) + rs[|rs| - 1].steps
  }

  function AllEvidence(rs: seq<Proposal>): seq<string> {
    if rs == [] then [] else AllEvidence(rs[..|rs| - 1]) + rs[|rs| - 1].evidence
  }

  function FirstModel(rs: seq<Proposal>): string {
    if rs == [] then ""
    else if FirstModel(rs[..|rs| - 1]) != "" then FirstModel(rs[..|rs| - 1])
    else rs[|rs| - 1].model
  }

  /** A text trimmed, or nothing when it is blank. */
  function Text(s: string): seq<string> { if TrimSpace(s) == "" then [] else [TrimSpace(s)] }

  function Reasonings(rs: seq<Proposal>): seq<string> {
    if rs == [] then [] else Reasonings(rs[..|rs| - 1]) + Text(rs[|rs| - 1].reasoning)
  }

  /** The reasons of the declined replies. */
  function Reasons(rs: seq<Proposal>): seq<string> {
    if rs == [] then []
    else Reasons(rs[..|rs| - 1]) + (if rs[|rs| - 1].declined then Text(rs[|rs| - 1].reason) else [])
  }

  predicate AllDeclined(rs: seq<Proposal>) { forall r :: r in rs ==> r.declined }

  function Merged(rs: seq<Proposal>): Proposal {
    Proposal(AllDeclined(rs), if AllDeclined(rs) then Join(Reasons(rs), " ") else "", "plan", AllSteps(rs),
             Join(Reasonings(rs), "\n\n"), AllEvidence(rs), FirstModel(rs), SumIn(rs), SumOut(rs))
  }

  lemma TotalsSnoc(rs: seq<Proposal>, r: Proposal)
    ensures SumIn(rs + [r]) == SumIn(rs) + r.tokensIn && SumOut(rs + [r]) == SumOut(rs) + r.tokensOut
    ensures AllSteps(rs + [r]) == AllSteps(rs) + r.steps && AllEvidence(rs + [r]) == AllEvidence(rs) + r.evidence
    ensures FirstModel(rs + [r]) == if FirstModel(rs) != "" then FirstModel(rs) else r.model
    ensures AllDeclined(rs + [r]) == (AllDeclined(rs) && r.declined)
  {
    assert (rs + [r])[..|rs|] == rs;
    assert forall q :: q in rs + [r] <==> q in rs || q == r;
  }

  // What merging means, without its recursion: one reply is itself, up to trimming, and merging two
  // lists of replies puts one merge behind the other.

  /** Two texts with a separator, or the one that is not empty. */
  function Beside(a: string, b: string, sep: string): string {
    if a == "" then b else if b == "" then a else a + sep + b
  }

  lemma OneText(r: Proposal)
    ensures Reasonings([r]) == Text(r.reasoning) && Reasons([r]) == if r.declined then Text(r.reason) else []
  {
    var rs := [r];
    assert rs[..|rs| - 1] == [] && rs[|rs| - 1] == r;
    assert Reasons([]) == [] && Reasonings([]) == [];
    assert Reasons(rs) == Reasons(rs[..|rs| - 1]) + (if rs[|rs| - 1].declined then Text(rs[|rs| - 1].reason) else []);
  }

  lemma OneJoined(text: string, sep: string)
    ensures Join(Text(text), sep) == TrimSpace(text)
  {
  }

  lemma MergedOne(r: Proposal)
    ensures Merged([r]) == r.(reason := if r.declined then TrimSpace(r.reason) else "", kind := "plan",
                              reasoning := TrimSpace(r.reasoning))
  {
    OneText(r);
    TotalsSnoc([], r);
    assert [] + [r] == [r];
    assert SumIn([]) == SumOut([]) == 0 && AllSteps([]) == [] && AllEvidence([]) == [] && FirstModel([]) == "";
    OneJoined(r.reasoning, "\n\n");
    OneJoined(r.reason, " ");
  }

  lemma {:induction false} ListsConcat(a: seq<Proposal>, b: seq<Proposal>)
    ensures AllSteps(a + b) == AllSteps(a) + AllSteps(b) && AllEvidence(a + b) == AllEvidence(a) + AllEvidence(b)
  {
    if b == [] {
      assert a + b == a;
    } else {
      var init, r := b[..|b| - 1], b[|b| - 1];
      assert (a + b)[..|a + b| - 1] == a + init;
      ListsConcat(a, init);
      Reassoc(AllSteps(a), AllSteps(init), r.steps);
      Reassoc(AllEvidence(a), AllEvidence(init), r.evidence);
    }
  }

  lemma {:induction false} TextsConcat(a: seq<Proposal>, b: seq<Proposal>)
    ensures Reasonings(a + b) == Reasonings(a) + Reasonings(b) && Reasons(a + b) == Reasons(a) + Reasons(b)
  {
    if b == [] {
      assert a + b == a;
    } else {
      var init, r := b[..|b| - 1], b[|b| - 1];
      assert (a + b)[..|a + b| - 1] == a + init;
      TextsConcat(a, init);
      Reassoc(Reasonings(a), Reasonings(init), Text(r.reasoning));
      Reassoc(Reasons(a), Reasons(init), if r.declined then Text(r.reason) else []);
    }
  }

  lemma {:induction false} TotalsConcat(a: seq<Proposal>, b: seq<Proposal>)
    ensures SumIn(a + b) == SumIn(a) + SumIn(b) && SumOut(a + b) == SumOut(a) + SumOut(b)
    ensures FirstModel(a + b) == if FirstModel(a) != "" then FirstModel(a) else FirstModel(b)
  {
    if b == [] {
      assert a + b == a;
    } else {
      assert (a + b)[..|a + b| - 1] == a + b[..|b| - 1];
      TotalsConcat(a, b[..|b| - 1]);
    }
  }

  lemma {:induction false} TextsAreNotEmpty(rs: seq<Proposal>)
    ensures "" !in Reasonings(rs) && "" !in Reasons(rs)
  {
    if rs != [] { TextsAreNotEmpty(rs[..|rs| - 1]); }
  }

  lemma JoinBeside(ts: seq<string>, us: seq<string>, sep: string)
    requires "" !in ts && "" !in us
    ensures Join(ts + us, sep) == Beside(Join(ts, sep), Join(us, sep), sep)
  {
    if ts == [] {
      assert ts + us == us;
    } else if us == [] {
      assert ts + us == ts;
    } else {
      JoinSplit(ts, us, sep);
      assert ts[0] in ts && us[0] in us;
    }
  }

  lemma MergedConcat(a: seq<Proposal>, b: seq<Proposal>)
    ensures var m, n, all := Merged(a), Merged(b), Merged(a + b);
            && all.steps == m.steps + n.steps && all.evidence == m.evidence + n.evidence
            && all.tokensIn == m.tokensIn + n.tokensIn && all.tokensOut == m.tokensOut + n.tokensOut
            && all.declined == (m.declined && n.declined) && all.model == (if m.model != "" then m.model else n.model)
            && all.reasoning == Beside(m.reasoning, n.reasoning, "\n\n")
            && (all.declined ==> all.reason == Beside(m.reason, n.reason, " "))
  {
    ListsConcat(a, b);
    TextsConcat(a, b);
    TotalsConcat(a, b);
    TextsAreNotEmpty(a);
    TextsAreNotEmpty(b);
    JoinBeside(Reasonings(a), Reasonings(b), "\n\n");
    JoinBeside(Reasons(a), Reasons(b), " ");
    assert forall r :: r in a + b <==> r in a || r in b;
  }

  /** The part of the merging loop that adds up one reply. */
  method AddReply(m: Proposal, r: Proposal) returns (m': Proposal)
    ensures m' == m.(tokensIn := m.tokensIn + r.tokensIn, tokensOut := m.tokensOut + r.tokensOut,
                     steps := m.steps + r.steps, evidence := m.evidence + r.evidence,
                     model := if m.model != "" then m.model else r.model, declined := m.declined && r.declined)
  {
    m' := m.(tokensIn := m.tokensIn + r.tokensIn, tokensOut := m.tokensOut + r.tokensOut);
    if m'.model == "" { m' := m'.(model := r.model); }
    m' := m'.(steps := m'.steps + r.steps, evidence := m'.evidence + r.evidence);
    if !r.declined { m' := m'.(declined := false); }
  }

  /** Blank texts are not collected. */
  method AddText(ts: seq<string>, raw: string) returns (ts': seq<string>)
    ensures ts' == ts + Text(raw)
  {
    ts' := ts;
    var t := TrimSpace(raw);
    if t != "" { ts' := ts' + [t]; }
  }

  /** mergeDiscoveryResults */
  method MergeDiscoveryResults(rs: seq<Proposal>) returns (m: Proposal)
    ensures m == Merged(rs)
  {
    m := Proposal(true, "", "plan", [], "", [], "", 0, 0);
    var reasonings, reasons: seq<string> := [], [];
    ghost var seen: seq<Proposal> := [];
    for i := 0 to |rs|
      invariant seen == rs[..i]
      invariant m.declined == AllDeclined(seen) && m.reason == m.reasoning == "" && m.kind == "plan"
      invariant m.steps == AllSteps(seen) && m.evidence == AllEvidence(seen) && m.model == FirstModel(seen)
      invariant m.tokensIn == SumIn(seen) && m.tokensOut == SumOut(seen)
      invariant reasonings == Reasonings(seen) && reasons == Reasons(seen)
    {
      var r := rs[i];
      TotalsSnoc(seen, r);
      TakeSnoc(rs, i);
      seen := seen + [r];
      m := AddReply(m, r);
      reasonings := AddText(reasonings, r.reasoning);
      if r.declined {
        reasons := AddText(reasons, r.reason);
      }
    }
    assert seen == rs;
    m := m.(reasoning := Join(reasonings, "\n\n"));
    if m.declined { m := m.(reason := Join(reasons, " ")); }
  }

  lemma {:induction false} StepsComeFromReplies(rs: seq<Proposal>)
    ensures forall s :: s in AllSteps(rs) <==> exists r :: r in rs && s in r.steps
  {
    if rs != [] {
      var init, l := rs[..|rs| - 1], rs[|rs| - 1];
      StepsComeFromReplies(init);
      assert forall r :: r in rs <==> r in init || r == l;
    }
  }

  /** What the merged proposal promises when every reply was decided for one scope: it is declined
      exactly when it has no steps, and every step carries that scope and a non-blank snippet. */
  lemma MergedIsSound(rs: seq<Proposal>, scope: string)
    requires forall r :: r in rs ==> Decided(Ok(r), scope)
    ensures Merged(rs).declined <==> Merged(rs).steps == []
    ensures forall s :: s in Merged(rs).steps ==> GoodStep(s, scope)
  {
    StepsComeFromReplies(rs);
    forall s | s in Merged(rs).steps ensures GoodStep(s, scope) {
      var r :| r in rs && s in r.steps;
    }
    if !AllDeclined(rs) {
      var r :| r in rs && !r.declined;
      assert r.steps[0] in AllSteps(rs);
    } else {
      NoMembers(AllSteps(rs));
    }
  }

  lemma NoMembers(steps: seq<PlanStep>)
    ensures (forall s :: s !in steps) ==> steps == []
  {
    if steps != [] { assert steps[0] in steps; }
  }
}
