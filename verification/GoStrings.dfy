/** The few operations of Go's `strings` package the models rely on.
    A Go string is a sequence of characters; all delimiters are ASCII, so indexing by
    code point and indexing by byte agree on where they fall. */
module GoStrings {

  datatype Option<+T> = None | Some(value: T)

  lemma TakeSnoc<T>(s: seq<T>, i: nat)
    requires i < |s|
    ensures s[..i + 1] == s[..i] + [s[i]]
  {
  }

  lemma SliceHead<T>(s: seq<T>, i: nat, j: nat)
    requires i < j <= |s|
    ensures s[i..j] == [s[i]] + s[i + 1..j]
  {
  }

  lemma Reassoc<T>(a: seq<T>, b: seq<T>, c: seq<T>)
    ensures a + (b + c) == a + b + c
  {
  }

  /** Go's `<` on strings. */
  predicate LexLess(a: string, b: string) {
    b != "" && (a == "" || a[0] < b[0] || (a[0] == b[0] && LexLess(a[1..], b[1..])))
  }

  /** After k equal characters, `a` has ended or goes on with the smaller character. */
  predicate BelowAt(a: string, b: string, k: nat) {
    k <= |a| && k < |b| && a[..k] == b[..k] && (k < |a| ==> a[k] < b[k])
  }

  /** The order is the dictionary's. */
  lemma {:induction false} LexLessIs(a: string, b: string)
    ensures LexLess(a, b) <==> exists k: nat :: BelowAt(a, b, k)
  {
    if a == "" || b == "" || a[0] != b[0] {
      assert b != "" && (a == "" || a[0] < b[0]) ==> BelowAt(a, b, 0);
      assert forall k: nat :: BelowAt(a, b, k) && k > 0 ==> a[..k][0] == a[0] && b[..k][0] == b[0];
    } else {
      LexLessIs(a[1..], b[1..]);
      if LexLess(a, b) {
        var k: nat :| BelowAt(a[1..], b[1..], k);
        assert a[..k + 1] == [a[0]] + a[1..][..k] && b[..k + 1] == [b[0]] + b[1..][..k];
        assert BelowAt(a, b, k + 1);
      } else {
        forall k: nat ensures !BelowAt(a, b, k) { NotBelow(a, b, k); }
      }
    }
  }

  lemma NotBelow(a: string, b: string, k: nat)
    requires a != "" && b != "" && a[0] == b[0] && forall j: nat :: !BelowAt(a[1..], b[1..], j)
    ensures !BelowAt(a, b, k)
  {
    if k > 0 && k <= |a| && k < |b| && a[..k] == b[..k] {
      assert a[1..][..k - 1] == a[..k][1..] && b[1..][..k - 1] == b[..k][1..];
      assert !BelowAt(a[1..], b[1..], k - 1);
    }
  }

  /** Not after, in that order. */
  predicate Le(a: string, b: string) { !LexLess(b, a) }

  lemma {:induction false} LexTrichotomy(a: string, b: string)
    ensures LexLess(a, b) ==> a != b && !LexLess(b, a)
    ensures LexLess(a, b) || a == b || LexLess(b, a)
  {
    if a != "" && b != "" && a[0] == b[0] {
      LexTrichotomy(a[1..], b[1..]);
      assert a == [a[0]] + a[1..] && b == [b[0]] + b[1..];
    }
  }

  lemma {:induction false} LexTransitive(a: string, b: string, c: string)
    requires LexLess(a, b) && LexLess(b, c)
    ensures LexLess(a, c)
  {
    if a != "" && a[0] == b[0] && b[0] == c[0] {
      LexTransitive(a[1..], b[1..], c[1..]);
    }
  }

  lemma LeTransitive(a: string, b: string, c: string)
    requires Le(a, b) && Le(b, c)
    ensures Le(a, c)
  {
    LexTrichotomy(a, b);
    LexTrichotomy(b, c);
    LexTrichotomy(a, c);
    if LexLess(a, b) && LexLess(b, c) { LexTransitive(a, b, c); }
  }

  /** unicode.IsSpace */
  predicate IsSpace(c: char) {
    var n := c as int;
    9 <= n <= 13 || n == 0x20 || n == 0x85 || n == 0xA0 || n == 0x1680 || 0x2000 <= n <= 0x200A ||
    n == 0x2028 || n == 0x2029 || n == 0x202F || n == 0x205F || n == 0x3000
  }

  predicate AllSpace(s: string) { forall i :: 0 <= i < |s| ==> IsSpace(s[i]) }

  /** The first position in lo..hi that is not white space, or hi. */
  function SkipSpace(s: string, lo: nat, hi: nat): (a: nat)
    requires lo <= hi <= |s|
    ensures lo <= a <= hi
    decreases hi - lo
  {
    if lo < hi && IsSpace(s[lo]) then SkipSpace(s, lo + 1, hi) else lo
  }

  /** The end of lo..hi once trailing white space is dropped. */
  function DropSpace(s: string, lo: nat, hi: nat): (b: nat)
    requires lo <= hi <= |s|
    ensures lo <= b <= hi
    decreases hi - lo
  {
    if lo < hi && IsSpace(s[hi - 1]) then DropSpace(s, lo, hi - 1) else hi
  }

  lemma {:induction false} SkipSpaceIs(s: string, lo: nat, hi: nat)
    requires lo <= hi <= |s|
    ensures forall i :: lo <= i < SkipSpace(s, lo, hi) ==> IsSpace(s[i])
    ensures SkipSpace(s, lo, hi) < hi ==> !IsSpace(s[SkipSpace(s, lo, hi)])
    decreases hi - lo
  {
    if lo < hi && IsSpace(s[lo]) { SkipSpaceIs(s, lo + 1, hi); }
  }

  lemma {:induction false} DropSpaceIs(s: string, lo: nat, hi: nat)
    requires lo <= hi <= |s|
    ensures forall i :: DropSpace(s, lo, hi) <= i < hi ==> IsSpace(s[i])
    ensures lo < DropSpace(s, lo, hi) ==> !IsSpace(s[DropSpace(s, lo, hi) - 1])
    decreases hi - lo
  {
    if lo < hi && IsSpace(s[hi - 1]) { DropSpaceIs(s, lo, hi - 1); }
  }

  lemma SkipSpaceAt(s: string, lo: nat, hi: nat, k: nat)
    requires lo <= k <= hi <= |s|
    requires forall i :: lo <= i < k ==> IsSpace(s[i])
    requires k < hi ==> !IsSpace(s[k])
    ensures SkipSpace(s, lo, hi) == k
  {
    SkipSpaceIs(s, lo, hi);
  }

  lemma DropSpaceAt(s: string, lo: nat, hi: nat, k: nat)
    requires lo <= k <= hi <= |s|
    requires forall i :: k <= i < hi ==> IsSpace(s[i])
    requires lo < k ==> !IsSpace(s[k - 1])
    ensures DropSpace(s, lo, hi) == k
  {
    DropSpaceIs(s, lo, hi);
  }

  /** The bounds of strings.TrimSpace(s[lo..hi]) inside s. */
  function TrimBounds(s: string, lo: nat, hi: nat): (b: (nat, nat))
    requires lo <= hi <= |s|
    ensures lo <= b.0 <= b.1 <= hi
  {
    var a := SkipSpace(s, lo, hi);
    (a, DropSpace(s, a, hi))
  }

  /** strings.TrimSpace */
  function TrimSpace(s: string): (t: string)
    ensures |t| <= |s|
  {
    var (a, b) := TrimBounds(s, 0, |s|);
    s[a..b]
  }

  predicate Trimmed(s: string) {
    s != [] ==> !IsSpace(s[0]) && !IsSpace(s[|s| - 1])
  }

  lemma TrimBoundsTrimmed(s: string, lo: nat, hi: nat)
    requires lo <= hi <= |s|
    ensures var (a, b) := TrimBounds(s, lo, hi);
            && (a < b ==> !IsSpace(s[a]) && !IsSpace(s[b - 1]))
            && (forall i :: lo <= i < a || b <= i < hi ==> IsSpace(s[i]))
  {
    var a := SkipSpace(s, lo, hi);
    SkipSpaceIs(s, lo, hi);
    DropSpaceIs(s, a, hi);
  }

  /** Trimming is determined by where the first and last ink is. */
  lemma TrimBoundsAre(s: string, lo: nat, hi: nat, a: nat, b: nat)
    requires lo <= a < b <= hi <= |s|
    requires forall i :: lo <= i < a || b <= i < hi ==> IsSpace(s[i])
    requires !IsSpace(s[a]) && !IsSpace(s[b - 1])
    ensures TrimBounds(s, lo, hi) == (a, b)
  {
    SkipSpaceIs(s, lo, hi);
    DropSpaceIs(s, SkipSpace(s, lo, hi), hi);
  }

  lemma TrimOfTrimmed(s: string)
    requires Trimmed(s)
    ensures TrimSpace(s) == s
  {
    if s != [] {
      TrimBoundsAre(s, 0, |s|, 0, |s|);
    }
  }

  lemma TrimAround(lead: string, s: string, trail: string)
    requires AllSpace(lead) && AllSpace(trail) && s != "" && Trimmed(s)
    ensures TrimSpace(lead + s + trail) == s
  {
    var t := lead + s + trail;
    var a, b := |lead|, |lead| + |s|;
    assert t[a] == s[0] && t[b - 1] == s[|s| - 1];
    TrimBoundsAre(t, 0, |t|, a, b);
    assert t[a..b] == s;
  }

  lemma TrimIsTrimmed(s: string)
    ensures Trimmed(TrimSpace(s))
  {
    TrimBoundsTrimmed(s, 0, |s|);
  }

  /** White space can only be trimmed off around characters that are not white space. */
  lemma TrimKeeps(s: string, lo: nat, hi: nat, a: nat, b: nat)
    requires lo <= a < b <= hi <= |s| && !IsSpace(s[a]) && !IsSpace(s[b - 1])
    ensures TrimBounds(s, lo, hi).0 <= a && b <= TrimBounds(s, lo, hi).1
  {
    TrimBoundsTrimmed(s, lo, hi);
  }

  /** strings.IndexByte on s[lo..hi], as an offset into s; -1 when there is none. */
  function IndexOf(s: string, c: char, lo: nat, hi: nat): (k: int)
    requires lo <= hi <= |s|
    ensures k == -1 || lo <= k < hi
    decreases hi - lo
  {
    if lo == hi then -1
    else if s[lo] == c then lo
    else IndexOf(s, c, lo + 1, hi)
  }

  lemma {:induction false} IndexOfIs(s: string, c: char, lo: nat, hi: nat)
    requires lo <= hi <= |s|
    ensures var k := IndexOf(s, c, lo, hi);
            && (k >= 0 ==> s[k] == c && forall i :: lo <= i < k ==> s[i] != c)
            && (k < 0 ==> forall i :: lo <= i < hi ==> s[i] != c)
    decreases hi - lo
  {
    if lo < hi && s[lo] != c { IndexOfIs(s, c, lo + 1, hi); }
  }

  lemma IndexOfAt(s: string, c: char, lo: nat, hi: nat, k: nat)
    requires lo <= k < hi <= |s| && s[k] == c
    requires forall i :: lo <= i < k ==> s[i] != c
    ensures IndexOf(s, c, lo, hi) == k
  {
    IndexOfIs(s, c, lo, hi);
  }

  /** The characters of `s` that are not white space, in order. */
  function Ink(s: string): (t: string)
  {
    if s == [] then [] else (if IsSpace(s[0]) then [] else [s[0]]) + Ink(s[1..])
  }

  lemma {:induction false} InkConcat(a: string, b: string)
    ensures Ink(a + b) == Ink(a) + Ink(b)
  {
    if a == [] {
      assert a + b == b;
    } else {
      InkConcat(a[1..], b);
      assert (a + b)[1..] == a[1..] + b && (a + b)[0] == a[0];
      var first: string := if IsSpace(a[0]) then [] else [a[0]];
      assert Ink(a + b) == first + Ink((a + b)[1..]);
      assert first + (Ink(a[1..]) + Ink(b)) == first + Ink(a[1..]) + Ink(b);
    }
  }

  lemma {:induction false} InkOfSpaces(s: string)
    requires forall i :: 0 <= i < |s| ==> IsSpace(s[i])
    ensures Ink(s) == []
  {
    if s != [] { InkOfSpaces(s[1..]); }
  }

  lemma InkTrim(s: string)
    ensures Ink(TrimSpace(s)) == Ink(s)
  {
    var (a, b) := TrimBounds(s, 0, |s|);
    TrimBoundsTrimmed(s, 0, |s|);
    InkSplit(s, a, b);
    InkOfSpaces(s[..a]);
    InkOfSpaces(s[b..]);
  }

  lemma InkSplit(s: string, a: nat, b: nat)
    requires a <= b <= |s|
    ensures Ink(s) == Ink(s[..a]) + Ink(s[a..b]) + Ink(s[b..])
  {
    CutTwice(s, a, b);
    InkConcatTwice(s[..a], s[a..b], s[b..]);
  }

  lemma InkConcatTwice(x: string, y: string, z: string)
    ensures Ink(x + y + z) == Ink(x) + Ink(y) + Ink(z)
  {
    InkConcat(x, y);
    InkConcat(x + y, z);
  }

  lemma CutTwice<T>(s: seq<T>, a: nat, b: nat)
    requires a <= b <= |s|
    ensures s == s[..a] + s[a..b] + s[b..]
  {
  }

  /** strings.Join */
  function Join(ts: seq<string>, sep: string): string {
    if ts == [] then "" else if |ts| == 1 then ts[0] else ts[0] + sep + Join(ts[1..], sep)
  }

  lemma {:induction false} JoinSplit(a: seq<string>, b: seq<string>, sep: string)
    requires a != [] && b != []
    ensures Join(a + b, sep) == Join(a, sep) + sep + Join(b, sep)
  {
    assert (a + b)[0] == a[0] && (a + b)[1..] == a[1..] + b;
    if |a| == 1 {
      assert a[1..] + b == b;
    } else {
      JoinSplit(a[1..], b, sep);
      assert a[0] + sep + (Join(a[1..], sep) + sep + Join(b, sep)) ==
             a[0] + sep + Join(a[1..], sep) + sep + Join(b, sep);
    }
  }

  // ---------------------------------------------------------------- strings.Fields

  /** The end of the word that starts at i. */
  function WordEnd(s: string, i: nat): (e: nat)
    requires i <= |s|
    ensures i <= e <= |s|
    decreases |s| - i
  {
    if i < |s| && !IsSpace(s[i]) then WordEnd(s, i + 1) else i
  }

  lemma {:induction false} WordEndIs(s: string, i: nat)
    requires i <= |s|
    ensures forall k :: i <= k < WordEnd(s, i) ==> !IsSpace(s[k])
    ensures WordEnd(s, i) < |s| ==> IsSpace(s[WordEnd(s, i)])
    decreases |s| - i
  {
    if i < |s| && !IsSpace(s[i]) { WordEndIs(s, i + 1); }
  }

  function FieldsFrom(s: string, i: nat): seq<string>
    requires i <= |s|
    decreases |s| - i
  {
    SkipSpaceIs(s, i, |s|);
    var a := SkipSpace(s, i, |s|);
    if a == |s| then [] else [s[a..WordEnd(s, a)]] + FieldsFrom(s, WordEnd(s, a))
  }

  function Fields(s: string): seq<string> { FieldsFrom(s, 0) }

  /** What Fields can produce. */
  predicate IsWord(w: string) { w != "" && forall i :: 0 <= i < |w| ==> !IsSpace(w[i]) }

  lemma {:induction false} FieldsAreWords(s: string, i: nat)
    requires i <= |s|
    ensures forall w :: w in FieldsFrom(s, i) ==> IsWord(w)
    decreases |s| - i
  {
    SkipSpaceIs(s, i, |s|);
    var a := SkipSpace(s, i, |s|);
    if a < |s| {
      WordEndIs(s, a);
      FieldsAreWords(s, WordEnd(s, a));
    }
  }

  lemma {:induction false} FieldsOfJoinFrom(s: string, i: nat, ws: seq<string>)
    requires i <= |s| && s[i..] == Join(ws, " ") && forall w :: w in ws ==> IsWord(w)
    ensures FieldsFrom(s, i) == ws
    decreases |ws|
  {
    if ws == [] {
      SkipSpaceAt(s, i, |s|, i);
    } else {
      var w := ws[0];
      assert w in ws;
      if |ws| == 1 {
        assert s[i..i + |w|] == w;
        FirstWord(s, i, w);
        SkipSpaceAt(s, |s|, |s|, |s|);
      } else {
        var j := i + |w|;
        var rest := Join(ws[1..], " ");
        JoinedTail(s, i, w, rest);
        FirstWord(s, i, w);
        FieldsOfJoinFrom(s, j + 1, ws[1..]);
      }
    }
  }

  lemma JoinedTail(s: string, i: nat, w: string, rest: string)
    requires i <= |s| && s[i..] == w + " " + rest
    ensures i + |w| < |s| && s[i..i + |w|] == w && s[i + |w|] == ' ' && s[i + |w| + 1..] == rest
  {
    var u := s[i..];
    assert u[..|w|] == w && u[|w|] == ' ' && u[|w| + 1..] == rest;
  }

  /** A word at i, up to white space or the end, is the first field from i on. */
  lemma FirstWord(s: string, i: nat, w: string)
    requires i + |w| <= |s| && s[i..i + |w|] == w && IsWord(w)
    requires i + |w| < |s| ==> IsSpace(s[i + |w|])
    ensures FieldsFrom(s, i) == [w] + FieldsFrom(s, i + |w|)
  {
    forall k | i <= k < i + |w| ensures !IsSpace(s[k]) { assert s[k] == w[k - i]; }
    SkipSpaceAt(s, i, |s|, i);
    WordEndIs(s, i);
    assert WordEnd(s, i) == i + |w|;
  }

  /** Joining words with spaces can be undone exactly when they are words. */
  lemma FieldsOfJoin(ws: seq<string>)
    ensures Fields(Join(ws, " ")) == ws <==> forall w :: w in ws ==> IsWord(w)
  {
    var s := Join(ws, " ");
    FieldsAreWords(s, 0);
    if forall w :: w in ws ==> IsWord(w) {
      assert s[0..] == s;
      FieldsOfJoinFrom(s, 0, ws);
    }
  }
}
