/** The keyless responder of Ask Squadron (`askDemoMode`, internal/ai/ask.go). It cites rows of the
    context bag, whose keys Go hands out in any order.

    The wording is a parameter: what matters is that none of it contains a '['. */
module AskDemo {
  import opened GoStrings
  import opened Citations

  /** The texts between the tags, named by the branch they belong to. */
  datatype Phrase =
    | CostSpike | CostSpikeEnd | CostFix | CostFixEnd | CostNothing
    | RolloutWaiting | RolloutWaitingEnd | RolloutNothing
    | StatusIntro | StatusSpike | StatusRollout | StatusAgent | StatusEnd | SentenceEnd
    | OtherIntro | OtherSpike | OtherRollout | OtherNothing | OtherEnd | ItemEnd

  datatype Piece = Say(p: Phrase) | Mention(c: Citation)

  function Text(ps: seq<Piece>, w: Phrase -> string): string {
    if ps == [] then ""
    else (match ps[0] case Say(p) => w(p) case Mention(c) => TagText(c.kind, c.id)) + Text(ps[1..], w)
  }

  function Mentions(ps: seq<Piece>): seq<Citation> {
    if ps == [] then [] else (if ps[0].Mention? then [ps[0].c] else []) + Mentions(ps[1..])
  }

  lemma {:induction false} PiecesConcat(a: seq<Piece>, b: seq<Piece>, w: Phrase -> string)
    ensures Text(a + b, w) == Text(a, w) + Text(b, w) && Mentions(a + b) == Mentions(a) + Mentions(b)
  {
    if a == [] {
      assert a + b == b;
    } else {
      assert (a + b)[0] == a[0] && (a + b)[1..] == a[1..] + b;
      PiecesConcat(a[1..], b, w);
      var first := match a[0] case Say(p) => w(p) case Mention(c) => TagText(c.kind, c.id);
      var cited := if a[0].Mention? then [a[0].c] else [];
      Reassoc(first, Text(a[1..], w), Text(b, w));
      Reassoc(cited, Mentions(a[1..]), Mentions(b));
    }
  }

  // ---------------------------------------------------------------- the method

  predicate OccursAt(s: string, sub: string, i: int) {
    0 <= i <= |s| - |sub| && s[i..i + |sub|] == sub
  }

  predicate Contains(s: string, sub: string) {
    exists i :: 0 <= i <= |s| && OccursAt(s, sub, i)
  }

  predicate ContainsAny(s: string, subs: seq<string>) {
    exists k :: 0 <= k < |subs| && Contains(s, subs[k])
  }

  /** byKind: the first id seen for each kind, in the order the keys come. */
  method FirstIDs(keys: seq<string>) returns (byKind: map<string, string>)
    ensures forall kind :: kind in byKind ==> kind != "" && Key(Citation(kind, byKind[kind])) in keys
    ensures forall k, n :: k in keys && 0 < n < |k| && k[n] == ':' && ':' !in k[..n] ==> k[..n] in byKind
  {
    byKind := map[];
    for i := 0 to |keys|
      invariant forall kind :: kind in byKind ==> kind != "" && Key(Citation(kind, byKind[kind])) in keys
      invariant forall j :: 0 <= j < i ==> KindIn(keys[j], byKind)
    {
      var k := keys[i];
      var n := IndexOf(k, ':', 0, |k|);
      IndexOfIs(k, ':', 0, |k|);
      if n > 0 {
        var kind := k[..n];
        if kind !in byKind {
          assert kind + ":" + k[n + 1..] == k;
          byKind := byKind[kind := k[n + 1..]];
        }
      }
    }
    forall k | k in keys ensures KindIn(k, byKind) { FirstColon(k); }
    forall k { FirstColon(k); }
  }

  /** The text before the first colon of the key, if there is any, is in the map. */
  predicate KindIn(k: string, byKind: map<string, string>) {
    var n := IndexOf(k, ':', 0, |k|);
    n > 0 ==> k[..n] in byKind
  }

  lemma FirstColon(k: string)
    ensures forall n :: 0 <= n < |k| && k[n] == ':' && ':' !in k[..n] ==> n == IndexOf(k, ':', 0, |k|)
  {
    forall n | 0 <= n < |k| && k[n] == ':' && ':' !in k[..n] ensures n == IndexOf(k, ':', 0, |k|) {
      forall i | 0 <= i < n ensures k[i] != ':' { assert k[i] == k[..n][i]; }
      IndexOfAt(k, ':', 0, |k|, n);
    }
  }

  /** An answer being written, with the citations recorded beside it. */
  datatype Draft = Draft(text: string, cites: seq<Citation>)

  ghost predicate Writes(d: Draft, ps: seq<Piece>, w: Phrase -> string) {
    d.text == Text(ps, w) && d.cites == Mentions(ps)
  }

  method Write(d: Draft, p: Phrase, w: Phrase -> string, ghost ps: seq<Piece>)
    returns (d': Draft, ghost ps': seq<Piece>)
    requires Writes(d, ps, w)
    ensures Writes(d', ps', w) && d'.cites == d.cites && d'.text == d.text + w(p)
  {
    d' := d.(text := d.text + w(p));
    ps' := ps + [Say(p)];
    PiecesConcat(ps, [Say(p)], w);
    assert Text([Say(p)], w) == w(p);
    assert Mentions([Say(p)]) == [];
  }

  /** One sentence with a tag in it. */
  method WriteCiting(d: Draft, before: Phrase, c: Citation, after: Phrase, w: Phrase -> string, ghost ps: seq<Piece>)
    returns (d': Draft, ghost ps': seq<Piece>)
    requires Writes(d, ps, w)
    ensures Writes(d', ps', w) && d'.cites == d.cites + [c] && d'.text != ""
  {
    d', ps' := Write(d, before, w, ps);
    ghost var qs := ps';
    d' := Draft(d'.text + TagText(c.kind, c.id), d'.cites + [c]);
    ps' := ps' + [Mention(c)];
    PiecesConcat(qs, [Mention(c)], w);
    assert Text([Mention(c)], w) == TagText(c.kind, c.id);
    assert Mentions([Mention(c)]) == [c];
    d', ps' := Write(d', after, w, ps');
  }

  ghost predicate Speaks(w: Phrase -> string) { forall p :: w(p) != "" }

  predicate CitedKind(kind: string) { kind == "spike" || kind == "rollout" || kind == "agent" }

  /** Rows of the bag, at most one of each kind. */
  ghost predicate Grounded(cites: seq<Citation>, keys: seq<string>) {
    && (forall c :: c in cites ==> Key(c) in keys && CitedKind(c.kind))
    && (forall i, j :: 0 <= i < j < |cites| ==> cites[i].kind != cites[j].kind)
  }

  function Kinds(cites: seq<Citation>): seq<string> { seq(|cites|, i requires 0 <= i < |cites| => cites[i].kind) }

  /** Some key of the bag is of the kind. */
  ghost predicate HasKind(keys: seq<string>, kind: string) { exists id :: Key(Citation(kind, id)) in keys }

  /** The kinds a question asks about: the first group of words it mentions decides. */
  function Wanted(q: string): (kinds: seq<string>)
    ensures kinds in [["rollout"], ["spike", "rollout"], ["spike", "rollout", "agent"]]
  {
    if ContainsAny(q, ["cost", "spend", "spike", "save"]) then ["spike", "rollout"]
    else if ContainsAny(q, ["rollout", "deploy", "approv", "canary"]) then ["rollout"]
    else if ContainsAny(q, ["wrong", "status", "health", "happening", "attention"]) then ["spike", "rollout", "agent"]
    else ["spike", "rollout"]
  }

  /** Those of the kinds that the bag has, in order. */
  ghost function Present(kinds: seq<string>, keys: seq<string>): seq<string> {
    if kinds == [] then []
    else (if HasKind(keys, kinds[0]) then [kinds[0]] else []) + Present(kinds[1..], keys)
  }

  /** askDemoMode. `lower` is strings.ToLower. */
  method AskDemoMode(lower: string -> string, question: string, keys: seq<string>, w: Phrase -> string)
    returns (answer: Option<Draft>)
    requires forall p :: '[' !in w(p)
    ensures answer.None? <==> lower(TrimSpace(question)) == ""
    ensures answer.Some? ==> Grounded(answer.value.cites, keys)
    ensures answer.Some? ==> Kinds(answer.value.cites) == Present(Wanted(lower(TrimSpace(question))), keys)
    ensures answer.Some? && Speaks(w) ==> answer.value.text != ""
    ensures answer.Some? ==> (CitationsOf(answer.value.text) == answer.value.cites <==>
                              forall c :: c in answer.value.cites ==> Citable(c.id))
  {
    var q := lower(TrimSpace(question));
    if q == "" { return None; }
    var byKind := FirstIDs(keys);
    var spike := if "spike" in byKind then Some(Citation("spike", byKind["spike"])) else None;
    var rollout := if "rollout" in byKind then Some(Citation("rollout", byKind["rollout"])) else None;
    var agent := if "agent" in byKind then Some(Citation("agent", byKind["agent"])) else None;
    KindFound(keys, byKind, "spike");
    KindFound(keys, byKind, "rollout");
    KindFound(keys, byKind, "agent");
    CitesForIs(Wanted(q), spike, rollout, agent, keys);
    var d, ps := AnswerFor(q, spike, rollout, agent, w);
    KindsAreClean(d.cites, keys);
    DemoRoundTrip(ps, w);
    return Some(d);
  }

  /** The rows of the wanted kinds. */
  function CitesFor(kinds: seq<string>, spike: Option<Citation>, rollout: Option<Citation>,
                    agent: Option<Citation>): seq<Citation> {
    match |kinds|
    case 1 => One(rollout)
    case 2 => One(spike) + One(rollout)
    case _ => One(spike) + One(rollout) + One(agent)
  }

  lemma CitesForIs(kinds: seq<string>, spike: Option<Citation>, rollout: Option<Citation>, agent: Option<Citation>,
                   keys: seq<string>)
    requires IsRow(spike, "spike", keys) && IsRow(rollout, "rollout", keys) && IsRow(agent, "agent", keys)
    requires IsPresent(spike, "spike", keys) && IsPresent(rollout, "rollout", keys) && IsPresent(agent, "agent", keys)
    requires kinds in [["rollout"], ["spike", "rollout"], ["spike", "rollout", "agent"]]
    ensures var cites := CitesFor(kinds, spike, rollout, agent);
            Grounded(cites, keys) && Kinds(cites) == Present(kinds, keys)
  {
    RowsAreGrounded(spike, rollout, agent, keys);
    KindsArePresent(spike, rollout, agent, keys);
  }

  /** The switch over the words of the question. */
  method AnswerFor(q: string, spike: Option<Citation>, rollout: Option<Citation>, agent: Option<Citation>,
                   w: Phrase -> string) returns (d: Draft, ghost ps: seq<Piece>)
    ensures Writes(d, ps, w) && d.cites == CitesFor(Wanted(q), spike, rollout, agent)
    ensures Speaks(w) ==> d.text != ""
  {
    if ContainsAny(q, ["cost", "spend", "spike", "save"]) {
      d, ps := AnswerCost(spike, rollout, w);
    } else if ContainsAny(q, ["rollout", "deploy", "approv", "canary"]) {
      d, ps := AnswerRollout(rollout, w);
    } else if ContainsAny(q, ["wrong", "status", "health", "happening", "attention"]) {
      d, ps := AnswerStatus(spike, rollout, agent, w);
    } else {
      d, ps := AnswerOther(spike, rollout, w);
    }
  }

  lemma KindFound(keys: seq<string>, byKind: map<string, string>, kind: string)
    requires kind != "" && ':' !in kind && forall k: string :: k in byKind ==> Key(Citation(k, byKind[k])) in keys
    requires forall k, n :: k in keys && 0 < n < |k| && k[n] == ':' && ':' !in k[..n] ==> k[..n] in byKind
    ensures kind in byKind <==> HasKind(keys, kind)
  {
    if HasKind(keys, kind) {
      var id :| Key(Citation(kind, id)) in keys;
      var k := Key(Citation(kind, id));
      assert k[..|kind|] == kind && k[|kind|] == ':';
    }
  }

  ghost predicate IsPresent(c: Option<Citation>, kind: string, keys: seq<string>) {
    (c.Some? <==> HasKind(keys, kind)) && (c.Some? ==> c.value.kind == kind)
  }

  lemma KindsArePresent(spike: Option<Citation>, rollout: Option<Citation>, agent: Option<Citation>, keys: seq<string>)
    requires IsPresent(spike, "spike", keys) && IsPresent(rollout, "rollout", keys) && IsPresent(agent, "agent", keys)
    ensures Kinds(One(rollout)) == Present(["rollout"], keys)
    ensures Kinds(One(spike) + One(rollout)) == Present(["spike", "rollout"], keys)
    ensures Kinds(One(spike) + One(rollout) + One(agent)) == Present(["spike", "rollout", "agent"], keys)
  {
    PresentFront("agent", [], agent, [], keys);
    PresentFront("rollout", [], rollout, [], keys);
    PresentFront("spike", ["rollout"], spike, One(rollout), keys);
    PresentFront("rollout", ["agent"], rollout, One(agent), keys);
    PresentFront("spike", ["rollout", "agent"], spike, One(rollout) + One(agent), keys);
    Reassoc(One(spike), One(rollout), One(agent));
    assert One(rollout) + [] == One(rollout) && One(agent) + [] == One(agent);
  }

  lemma PresentFront(kind: string, kinds: seq<string>, c: Option<Citation>, cites: seq<Citation>, keys: seq<string>)
    requires IsPresent(c, kind, keys) && Kinds(cites) == Present(kinds, keys)
    ensures Kinds(One(c) + cites) == Present([kind] + kinds, keys)
  {
    assert ([kind] + kinds)[1..] == kinds;
    assert Kinds(One(c) + cites) == (if c.Some? then [kind] else []) + Kinds(cites);
  }

  /** A row of the bag, if there is one. */
  function One(c: Option<Citation>): seq<Citation> { if c.Some? then [c.value] else [] }

  ghost predicate IsRow(c: Option<Citation>, kind: string, keys: seq<string>) {
    c.Some? ==> c.value.kind == kind && Key(c.value) in keys
  }

  lemma RowsAreGrounded(spike: Option<Citation>, rollout: Option<Citation>, agent: Option<Citation>, keys: seq<string>)
    requires IsRow(spike, "spike", keys) && IsRow(rollout, "rollout", keys) && IsRow(agent, "agent", keys)
    ensures Grounded(One(spike) + One(rollout) + One(agent), keys)
    ensures Grounded(One(spike) + One(rollout), keys) && Grounded(One(rollout), keys)
  {
  }

  method AnswerCost(spike: Option<Citation>, rollout: Option<Citation>, w: Phrase -> string)
    returns (d: Draft, ghost ps: seq<Piece>)
    ensures Writes(d, ps, w) && d.cites == One(spike) + One(rollout)
    ensures Speaks(w) ==> d.text != ""
  {
    d, ps := Draft("", []), [];
    if spike.Some? { d, ps := WriteCiting(d, CostSpike, spike.value, CostSpikeEnd, w, ps); }
    if rollout.Some? { d, ps := WriteCiting(d, CostFix, rollout.value, CostFixEnd, w, ps); }
    if spike.None? && rollout.None? { d, ps := Write(d, CostNothing, w, ps); }
  }

  method AnswerRollout(rollout: Option<Citation>, w: Phrase -> string) returns (d: Draft, ghost ps: seq<Piece>)
    ensures Writes(d, ps, w) && d.cites == One(rollout)
    ensures Speaks(w) ==> d.text != ""
  {
    d, ps := Draft("", []), [];
    if rollout.Some? {
      d, ps := WriteCiting(d, RolloutWaiting, rollout.value, RolloutWaitingEnd, w, ps);
    } else {
      d, ps := Write(d, RolloutNothing, w, ps);
    }
  }

  method AnswerStatus(spike: Option<Citation>, rollout: Option<Citation>, agent: Option<Citation>, w: Phrase -> string)
    returns (d: Draft, ghost ps: seq<Piece>)
    ensures Writes(d, ps, w) && d.cites == One(spike) + One(rollout) + One(agent)
    ensures Speaks(w) ==> d.text != ""
  {
    d, ps := Draft("", []), [];
    d, ps := Write(d, StatusIntro, w, ps);
    if spike.Some? { d, ps := WriteCiting(d, StatusSpike, spike.value, SentenceEnd, w, ps); }
    if rollout.Some? { d, ps := WriteCiting(d, StatusRollout, rollout.value, SentenceEnd, w, ps); }
    if agent.Some? { d, ps := WriteCiting(d, StatusAgent, agent.value, SentenceEnd, w, ps); }
    d, ps := Write(d, StatusEnd, w, ps);
  }

  method AnswerOther(spike: Option<Citation>, rollout: Option<Citation>, w: Phrase -> string)
    returns (d: Draft, ghost ps: seq<Piece>)
    ensures Writes(d, ps, w) && d.cites == One(spike) + One(rollout)
    ensures Speaks(w) ==> d.text != ""
  {
    d, ps := Draft("", []), [];
    d, ps := Write(d, OtherIntro, w, ps);
    if spike.Some? { d, ps := WriteCiting(d, OtherSpike, spike.value, ItemEnd, w, ps); }
    if rollout.Some? { d, ps := WriteCiting(d, OtherRollout, rollout.value, ItemEnd, w, ps); }
    if spike.None? && rollout.None? { d, ps := Write(d, OtherNothing, w, ps); }
    d, ps := Write(d, OtherEnd, w, ps);
  }

  // ---------------------------------------------------------------- writing, then parsing

  /** An id that survives being written into a tag and read back. */
  predicate Citable(id: string) { id != "" && Trimmed(id) && ']' !in id }

  predicate CleanKind(kind: string) { kind != "" && Trimmed(kind) && ':' !in kind && ']' !in kind }

  lemma KindsAreClean(cites: seq<Citation>, keys: seq<string>)
    requires Grounded(cites, keys)
    ensures forall c :: c in cites ==> CleanKind(c.kind)
  {
    assert CleanKind("spike") && CleanKind("rollout") && CleanKind("agent");
  }

  /** The pieces as a document; `text` is what was written since the last tag. */
  function ToDoc(ps: seq<Piece>, text: string, w: Phrase -> string): Doc
    decreases |ps|
  {
    if ps == [] then End(text)
    else match ps[0]
      case Say(p) => ToDoc(ps[1..], text + w(p), w)
      case Mention(c) => Cite(text, c.kind, c.id, ToDoc(ps[1..], "", w))
  }

  lemma {:induction false} ToDocRenders(ps: seq<Piece>, text: string, w: Phrase -> string)
    ensures Render(ToDoc(ps, text, w)) == text + Text(ps, w)
    decreases |ps|
  {
    if ps == [] {
      assert text + "" == text;
    } else {
      match ps[0]
      case Say(p) =>
        ToDocRenders(ps[1..], text + w(p), w);
        Reassoc(text, w(p), Text(ps[1..], w));
      case Mention(c) =>
        ToDocRenders(ps[1..], "", w);
        assert "" + Text(ps[1..], w) == Text(ps[1..], w);
    }
  }

  lemma {:induction false} ToDocIsProper(ps: seq<Piece>, text: string, w: Phrase -> string)
    requires '[' !in text && forall p :: '[' !in w(p)
    requires forall c :: c in Mentions(ps) ==> CleanKind(c.kind) && Citable(c.id)
    ensures Proper(ToDoc(ps, text, w)) && Cited(ToDoc(ps, text, w)) == Mentions(ps)
    decreases |ps|
  {
    if ps != [] {
      match ps[0]
      case Say(p) => ToDocIsProper(ps[1..], text + w(p), w);
      case Mention(c) =>
        assert c in Mentions(ps);
        ToDocIsProper(ps[1..], "", w);
        TrimOfTrimmed(c.kind);
        TrimOfTrimmed(c.id);
    }
  }

  lemma {:induction false} DedupOfDistinct(cs: seq<Citation>)
    requires forall i, j :: 0 <= i < j < |cs| ==> cs[i] != cs[j]
    requires forall c :: c in cs ==> !Blank(c)
    ensures Dedup(cs) == cs
  {
    if cs != [] {
      var init, l := cs[..|cs| - 1], cs[|cs| - 1];
      DedupOfDistinct(init);
      assert cs == init + [l];
      assert l !in init;
    }
  }

  /** Parsing what the responder wrote gives its own citation list back exactly when every cited id
      is trimmed, non-empty and free of ']'. */
  lemma DemoRoundTrip(ps: seq<Piece>, w: Phrase -> string)
    requires forall p :: '[' !in w(p)
    requires forall c :: c in Mentions(ps) ==> CleanKind(c.kind)
    requires forall i, j :: 0 <= i < j < |Mentions(ps)| ==> Mentions(ps)[i].kind != Mentions(ps)[j].kind
    ensures CitationsOf(Text(ps, w)) == Mentions(ps) <==> forall c :: c in Mentions(ps) ==> Citable(c.id)
  {
    var cs := Mentions(ps);
    if forall c :: c in cs ==> Citable(c.id) {
      ToDocRenders(ps, "", w);
      ToDocIsProper(ps, "", w);
      assert "" + Text(ps, w) == Text(ps, w);
      ParseRendered(ToDoc(ps, "", w));
      DedupOfDistinct(cs);
    }
    CitationsAreClean(Text(ps, w));
  }
}
