/** The two capability checks: `Registry.AllowsAction` in the control plane
    (internal/actions/registry.go) and `Runner.actionAllowed` on the node
    (cmd/squadron-action-runner/runner.go). The per-type matchers are arbitrary functions. */
module Capabilities {

  datatype Capability = Capability(typ: string, constraints: string)

  /** MatchesCapability: allowed, and the reason of a rejection (possibly empty). */
  type Matcher = (string, Capability) -> (bool, string)

  type Registry = map<string, Matcher>

  // ---------------------------------------------------------------- what the checks decide

  predicate Matches(m: Matcher, params: string, c: Capability) { m(params, c).0 }

  predicate RejectsWithReason(m: Matcher, params: string, c: Capability) {
    !m(params, c).0 && m(params, c).1 != ""
  }

  ghost predicate RunnerAllows(reg: Registry, caps: seq<Capability>, typ: string, params: string) {
    typ in reg && exists c :: c in caps && c.typ == typ && Matches(reg[typ], params, c)
  }

  /** Capability i permits the action and none before it rejected it with a reason. */
  ghost predicate PermittedAt(m: Matcher, caps: seq<Capability>, typ: string, params: string, i: nat) {
    && i < |caps| && caps[i].typ == typ && Matches(m, params, caps[i])
    && forall j :: 0 <= j < i && caps[j].typ == typ ==> !RejectsWithReason(m, params, caps[j])
  }

  ghost predicate ControlAllows(reg: Registry, caps: seq<Capability>, typ: string, params: string) {
    typ in reg && exists i: nat :: PermittedAt(reg[typ], caps, typ, params, i)
  }

  const UNKNOWN_TYPE: string := "unknown action type"
  const NO_DECLARATION: string := "no capability declaration"

  /** The reason of the first capability that rejected the action with one, or that none was declared. */
  ghost predicate IsReason(m: Matcher, caps: seq<Capability>, typ: string, params: string, reason: string) {
    || (exists i: nat :: RejectedAt(m, caps, typ, params, i) && reason == m(params, caps[i]).1)
    || (reason == NO_DECLARATION && forall j :: 0 <= j < |caps| && caps[j].typ == typ ==>
        m(params, caps[j]) == (false, ""))
  }

  /** Capability i is the first of its type to have an opinion, and rejects the action with a reason. */
  ghost predicate RejectedAt(m: Matcher, caps: seq<Capability>, typ: string, params: string, i: nat) {
    && i < |caps| && caps[i].typ == typ && RejectsWithReason(m, params, caps[i])
    && forall j :: 0 <= j < i && caps[j].typ == typ ==> m(params, caps[j]) == (false, "")
  }

  /** Runner.actionAllowed */
  method ActionAllowed(reg: Registry, caps: seq<Capability>, typ: string, params: string) returns (r: bool)
    ensures r == RunnerAllows(reg, caps, typ, params)
  {
    for i := 0 to |caps|
      invariant typ in reg ==> forall j :: 0 <= j < i && caps[j].typ == typ ==> !Matches(reg[typ], params, caps[j])
    {
      var c := caps[i];
      if c.typ != typ { continue; }
      if typ !in reg { return false; }
      var (ok, _) := reg[typ](params, c);
      if ok {
        assert c in caps && Matches(reg[typ], params, c);
        return true;
      }
    }
    return false;
  }

  /** Registry.AllowsAction */
  method AllowsAction(reg: Registry, caps: seq<Capability>, typ: string, params: string)
    returns (r: bool, reason: string)
    ensures r == ControlAllows(reg, caps, typ, params)
    ensures r <==> reason == ""
    ensures !r && typ !in reg ==> reason == UNKNOWN_TYPE
    ensures !r && typ in reg ==> IsReason(reg[typ], caps, typ, params, reason)
  {
    if typ !in reg { return false, UNKNOWN_TYPE; }
    var at := reg[typ];
    for i := 0 to |caps|
      invariant forall j :: 0 <= j < i && caps[j].typ == typ ==>
                  !Matches(at, params, caps[j]) && !RejectsWithReason(at, params, caps[j])
    {
      var c := caps[i];
      if c.typ != typ { continue; }
      var (allowed, why) := at(params, c);
      if allowed {
        assert PermittedAt(at, caps, typ, params, i);
        return true, "";
      }
      if why != "" {
        assert RejectedAt(at, caps, typ, params, i);
        return false, why;
      }
    }
    return false, NO_DECLARATION;
  }

  // ---------------------------------------------------------------- how they compare

  /** The node never refuses what the control plane let through. */
  lemma ControlImpliesRunner(reg: Registry, caps: seq<Capability>, typ: string, params: string)
    requires ControlAllows(reg, caps, typ, params)
    ensures RunnerAllows(reg, caps, typ, params)
  {
    var i: nat :| PermittedAt(reg[typ], caps, typ, params, i);
    assert caps[i] in caps;
  }

  ghost predicate OneDeclaration(caps: seq<Capability>, typ: string) {
    forall i, j :: 0 <= i < j < |caps| && caps[i].typ == typ && caps[j].typ == typ ==> caps[i] == caps[j]
  }

  /** With one declaration per type the two checks agree, for every matcher. */
  lemma AgreeOnOneDeclaration(reg: Registry, caps: seq<Capability>, typ: string, params: string)
    requires OneDeclaration(caps, typ)
    ensures ControlAllows(reg, caps, typ, params) <==> RunnerAllows(reg, caps, typ, params)
  {
    if RunnerAllows(reg, caps, typ, params) {
      var c :| c in caps && c.typ == typ && Matches(reg[typ], params, c);
      var i: nat :| i < |caps| && caps[i] == c;
      assert PermittedAt(reg[typ], caps, typ, params, i);
    } else if ControlAllows(reg, caps, typ, params) {
      ControlImpliesRunner(reg, caps, typ, params);
    }
  }

  /** With two different declarations of one type they do not: there is a matcher under which the
      control plane stops at the first declaration's reason while the node goes on to the second. */
  lemma DisagreeOtherwise(caps: seq<Capability>, typ: string, params: string) returns (reg: Registry)
    requires !OneDeclaration(caps, typ)
    ensures RunnerAllows(reg, caps, typ, params) && !ControlAllows(reg, caps, typ, params)
  {
    var i, j :| 0 <= i < j < |caps| && caps[i].typ == typ && caps[j].typ == typ && caps[i] != caps[j];
    var first := FirstOfType(caps, typ, i);
    var m: Matcher := (p, c) => if c == caps[first] then (false, "rejected") else (true, "");
    reg := map[typ := m];
    var k := if caps[i] == caps[first] then j else i;
    assert caps[k] in caps && Matches(m, params, caps[k]);
    assert RejectsWithReason(m, params, caps[first]);
    forall n: nat ensures !PermittedAt(m, caps, typ, params, n) {
      if n < |caps| && caps[n].typ == typ && Matches(m, params, caps[n]) {
        assert first < n;
      }
    }
  }

  lemma FirstOfType(caps: seq<Capability>, typ: string, i: nat) returns (k: nat)
    requires i < |caps| && caps[i].typ == typ
    ensures k <= i && caps[k].typ == typ && forall j :: 0 <= j < k ==> caps[j].typ != typ
  {
    k := 0;
    while caps[k].typ != typ
      invariant k <= i && forall j :: 0 <= j < k ==> caps[j].typ != typ
      decreases i - k
    {
      k := k + 1;
    }
  }
}
