/** The registry of action types (internal/actions/registry.go): `Register`, `Get`, and `Types`,
    which lists the registered names in order whatever order the map yields them in. */
module ActionCatalog {
  import opened GoStrings

  ghost predicate Ordered(s: seq<string>) {
    forall i, j :: 0 <= i < j < |s| ==> Le(s[i], s[j])
  }

  ghost predicate Distinct(s: seq<string>) {
    forall i, j :: 0 <= i < j < |s| ==> s[i] != s[j]
  }

  // ---------------------------------------------------------------- sortStrings

  /** Ordered up to n, but for the element at j, which may still be too small for its place. */
  ghost predicate OrderedBut(s: seq<string>, n: nat, j: nat)
    requires n <= |s|
  {
    forall p, q :: 0 <= p < q < n && q != j ==> Le(s[p], s[q])
  }

  lemma Settled(s: seq<string>, n: nat, j: nat)
    requires j < n <= |s| && OrderedBut(s, n, j) && (j > 0 ==> Le(s[j - 1], s[j]))
    ensures OrderedBut(s, n, |s|)
  {
    forall p | 0 <= p < j ensures Le(s[p], s[j]) {
      if p < j - 1 { LeTransitive(s[p], s[j - 1], s[j]); }
    }
  }

  lemma SwapKeepsOrder(s: seq<string>, n: nat, j: nat)
    requires 0 < j < n <= |s| && OrderedBut(s, n, j) && LexLess(s[j], s[j - 1])
    ensures OrderedBut(s[j - 1 := s[j]][j := s[j - 1]], n, j - 1)
  {
    LexTrichotomy(s[j], s[j - 1]);
  }

  /** sortStrings: insertion sort, in place. */
  method SortStrings(a: array<string>)
    modifies a
    ensures Ordered(a[..]) && multiset(a[..]) == multiset(old(a[..]))
  {
    var i := 1;
    while i < a.Length
      invariant 1 <= i && (i <= a.Length || a.Length == 0)
      invariant OrderedBut(a[..], if i <= a.Length then i else 0, a.Length)
      invariant multiset(a[..]) == multiset(old(a[..]))
    {
      var j := i;
      assert OrderedBut(a[..], i + 1, j);
      while j > 0 && LexLess(a[j], a[j - 1])
        invariant 0 <= j <= i && OrderedBut(a[..], i + 1, j)
        invariant multiset(a[..]) == multiset(old(a[..]))
      {
        ghost var s := a[..];
        SwapKeepsOrder(s, i + 1, j);
        a[j - 1], a[j] := a[j], a[j - 1];
        assert a[..] == s[j - 1 := s[j]][j := s[j - 1]];
        j := j - 1;
      }
      Settled(a[..], i + 1, j);
      i := i + 1;
    }
  }

  // ---------------------------------------------------------------- the registry

  /** An action type; its two functions may be missing. */
  datatype ActionType = ActionType(name: string, hasValidate: bool, hasMatcher: bool)

  datatype Refusal = NameRequired | NoValidate | NoMatcher | AlreadyRegistered

  /** A listing of the names: all of them, once each, in order. */
  ghost predicate Lists(out: seq<string>, names: set<string>) {
    Ordered(out) && Distinct(out) && forall k :: k in out <==> k in names
  }

  class Registry {
    var types: map<string, ActionType>

    /** Every entry is registered under its own name and is complete. */
    ghost predicate Valid()
      reads this
    {
      "" !in types && forall k :: k in types ==> types[k].name == k && types[k].hasValidate && types[k].hasMatcher
    }

    constructor ()
      ensures Valid() && types == map[]
    {
      types := map[];
    }

    /** Register: a type is never replaced. */
    method Register(at: ActionType) returns (problem: Option<Refusal>)
      requires Valid()
      modifies this
      ensures Valid()
      ensures problem.None? <==> at.name != "" && at.hasValidate && at.hasMatcher && at.name !in old(types)
      ensures types == if problem.None? then old(types)[at.name := at] else old(types)
    {
      if at.name == "" { return Some(NameRequired); }
      if !at.hasValidate { return Some(NoValidate); }
      if !at.hasMatcher { return Some(NoMatcher); }
      if at.name in types { return Some(AlreadyRegistered); }
      types := types[at.name := at];
      return None;
    }

    /** Get */
    method Get(name: string) returns (at: Option<ActionType>)
      requires Valid()
      ensures at.Some? <==> name in types
      ensures at.Some? ==> at.value == types[name] && at.value.name == name
    {
      if name !in types { return None; }
      return Some(types[name]);
    }

    /** Types. The names are collected in an arbitrary order, then sorted. */
    method Types() returns (out: seq<string>)
      requires Valid()
      ensures Lists(out, types.Keys)
    {
      var keys := types.Keys;
      var names: seq<string> := [];
      while keys != {}
        invariant keys <= types.Keys && Distinct(names)
        invariant forall k :: k in names <==> k in types.Keys && k !in keys
        decreases keys
      {
        var k :| k in keys;
        keys := keys - {k};
        names := names + [k];
      }
      var a := new string[|names|](i requires 0 <= i < |names| => names[i]);
      assert a[..] == names;
      SortStrings(a);
      out := a[..];
      PermutationKeeps(names, out);
    }
  }

  lemma PermutationKeeps(s: seq<string>, t: seq<string>)
    requires multiset(s) == multiset(t) && Distinct(s)
    ensures Distinct(t) && forall k :: k in s <==> k in t
  {
    forall k ensures k in s <==> k in t {
      assert k in s <==> k in multiset(s);
      assert k in t <==> k in multiset(t);
    }
    forall i, j | 0 <= i < j < |t| ensures t[i] != t[j] {
      if t[i] == t[j] {
        TwoOccurrences(t, i, j);
        OneOccurrence(s, t[i]);
      }
    }
  }

  lemma TwoOccurrences(t: seq<string>, i: nat, j: nat)
    requires i < j < |t| && t[i] == t[j]
    ensures multiset(t)[t[i]] >= 2
  {
    assert t == t[..j] + t[j..];
    assert t[i] in t[..j] && t[j] in t[j..];
  }

  lemma {:induction false} OneOccurrence(s: seq<string>, k: string)
    requires Distinct(s)
    ensures multiset(s)[k] <= 1
  {
    if s != [] {
      var n := |s| - 1;
      OneOccurrence(s[..n], k);
      assert s == s[..n] + [s[n]];
      if s[n] == k { assert k !in s[..n]; }
    }
  }

  /** The listing is deterministic: two listings of the same names are the same sequence. */
  lemma {:induction false} OneListing(s: seq<string>, t: seq<string>, names: set<string>)
    requires Lists(s, names) && Lists(t, names)
    ensures s == t
    decreases |s|
  {
    if s == [] {
      HeadIsIn(t);
    } else {
      var n, m := |s| - 1, |t| - 1;
      assert s[n] in names;
      assert t != [] && t[m] in names;
      LastIsGreatest(s, names, t[m]);
      LastIsGreatest(t, names, s[n]);
      LexTrichotomy(s[n], t[m]);
      DropLast(s, names);
      DropLast(t, names);
      OneListing(s[..n], t[..m], names - {s[n]});
      assert s == s[..n] + [s[n]] && t == t[..m] + [t[m]];
    }
  }

  lemma HeadIsIn(t: seq<string>)
    ensures t != [] ==> t[0] in t
  {
  }

  lemma LastIsGreatest(s: seq<string>, names: set<string>, k: string)
    requires s != [] && Lists(s, names) && k in names
    ensures Le(k, s[|s| - 1])
  {
    assert k in s;
    var i :| 0 <= i < |s| && s[i] == k;
    LexTrichotomy(k, k);
  }

  lemma DropLast(s: seq<string>, names: set<string>)
    requires s != [] && Lists(s, names)
    ensures Lists(s[..|s| - 1], names - {s[|s| - 1]})
  {
    var n := |s| - 1;
    assert s == s[..n] + [s[n]];
    assert s[n] !in s[..n];
  }
}
