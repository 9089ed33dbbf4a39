/** The citation tags of Ask Squadron (internal/ai/ask.go): `parseAskAnswer`, which strips
    [cite:kind:id] tags from an answer and lists them, and the keyless responder that writes such
    answers. */
module Citations {
  import opened GoStrings

  datatype Citation = Citation(kind: string, id: string)

  // ---------------------------------------------------------------- the walk

  const OPEN: string := "[cite:"

  predicate OpensTag(s: string, i: nat) {
    i + 6 <= |s| && s[i] == '[' && s[i + 1] == 'c' && s[i + 2] == 'i' && s[i + 3] == 't' && s[i + 4] == 'e' &&
      s[i + 5] == ':'
  }

  datatype Hit = NoTag | Tag(next: nat, cite: Citation)

  /** The tag that starts at i: closed by the first ']', split at the first ':'. */
  function TagAt(s: string, i: nat): (h: Hit)
    ensures h.Tag? ==> i < h.next <= |s|
  {
    if !OpensTag(s, i) then NoTag
    else
      var e := IndexOf(s, ']', i + 6, |s|);
      if e < 0 then NoTag
      else
        var c := IndexOf(s, ':', i + 6, e);
        if c < 0 then NoTag
        else Tag(e + 1, Citation(TrimSpace(s[i + 6..c]), TrimSpace(s[c + 1..e])))
  }

  /** What is left of s[i..] without its tags. */
  function Visible(s: string, i: nat): string
    requires i <= |s|
    decreases |s| - i
  {
    if i == |s| then ""
    else match TagAt(s, i)
      case Tag(next, _) => Visible(s, next)
      case NoTag => [s[i]] + Visible(s, i + 1)
  }

  /** The tags of s[i..], in order, repeated and blank ones included. */
  function Tags(s: string, i: nat): seq<Citation>
    requires i <= |s|
    decreases |s| - i
  {
    if i == |s| then []
    else match TagAt(s, i)
      case Tag(next, cite) => [cite] + Tags(s, next)
      case NoTag => Tags(s, i + 1)
  }

  predicate Blank(c: Citation) { c.kind == "" || c.id == "" }

  /** First occurrences only, blank ones dropped. */
  function Dedup(cs: seq<Citation>): seq<Citation> {
    if cs == [] then []
    else
      var ds := Dedup(cs[..|cs| - 1]);
      var c := cs[|cs| - 1];
      if Blank(c) || c in ds then ds else ds + [c]
  }

  /** strings.ReplaceAll(s, "  ", " ") */
  function Collapse(s: string): string {
    if |s| >= 2 && s[0] == ' ' && s[1] == ' ' then " " + Collapse(s[2..])
    else if s == "" then ""
    else [s[0]] + Collapse(s[1..])
  }

  function CitationsOf(text: string): seq<Citation> { Dedup(Tags(TrimSpace(text), 0)) }

  function AnswerOf(text: string): string { TrimSpace(Collapse(Visible(TrimSpace(text), 0))) }

  /** The key under which `seen` remembers a citation. */
  function Key(c: Citation): string { c.kind + ":" + c.id }

  /** The branch of the loop that reads a tag. */
  method ReadTag(answer: string, i: nat) returns (h: Hit)
    ensures h == TagAt(answer, i)
  {
    if OpensTag(answer, i) {
      var end := IndexOf(answer, ']', i + 6, |answer|);
      if end >= 0 {
        var colon := IndexOf(answer, ':', i + 6, end);
        if colon >= 0 {
          return Tag(end + 1, Citation(TrimSpace(answer[i + 6..colon]), TrimSpace(answer[colon + 1..end])));
        }
      }
    }
    return NoTag;
  }

  /** The branch that records one. */
  method Record(seen: set<string>, citations: seq<Citation>, c: Citation, ghost found: seq<Citation>)
    returns (seen': set<string>, citations': seq<Citation>)
    requires SeenExactly(seen, citations) && citations == Dedup(found) && ':' !in c.kind
    ensures SeenExactly(seen', citations') && citations' == Dedup(found + [c])
  {
    SeenStep(seen, citations, c);
    seen', citations' := seen, citations;
    if Key(c) !in seen && !Blank(c) {
      seen', citations' := seen + {Key(c)}, citations + [c];
    }
  }

  /** parseAskAnswer */
  method ParseAskAnswer(text: string) returns (cleaned: string, citations: seq<Citation>)
    ensures cleaned == AnswerOf(text) && citations == CitationsOf(text)
  {
    var answer := TrimSpace(text);
    citations := [];
    var seen: set<string> := {};
    var out := "";
    var i := 0;
    ghost var found: seq<Citation> := [];
    while i < |answer|
      invariant i <= |answer|
      invariant out + Visible(answer, i) == Visible(answer, 0)
      invariant found + Tags(answer, i) == Tags(answer, 0)
      invariant citations == Dedup(found)
      invariant SeenExactly(seen, citations)
      decreases |answer| - i
    {
      var h := ReadTag(answer, i);
      WalkStep(answer, i, out, found);
      if h.Tag? {
        TagIsClean(answer, i);
        seen, citations := Record(seen, citations, h.cite, found);
        found := found + [h.cite];
        i := h.next;
      } else {
        out := out + [answer[i]];
        i := i + 1;
      }
    }
    assert out + "" == out && found + [] == found;
    cleaned := TrimSpace(Collapse(out));
  }

  /** One turn of the walk. */
  lemma WalkStep(s: string, i: nat, out: string, found: seq<Citation>)
    requires i < |s|
    ensures match TagAt(s, i)
            case Tag(next, cite) =>
              Visible(s, i) == Visible(s, next) && found + Tags(s, i) == found + [cite] + Tags(s, next)
            case NoTag =>
              out + Visible(s, i) == out + [s[i]] + Visible(s, i + 1) && Tags(s, i) == Tags(s, i + 1)
  {
    match TagAt(s, i)
    case Tag(next, cite) => Reassoc(found, [cite], Tags(s, next));
    case NoTag => Reassoc(out, [s[i]], Visible(s, i + 1));
  }

  /** `seen` holds the keys of the citations, and each of them can be told by its key. */
  ghost predicate SeenExactly(seen: set<string>, cs: seq<Citation>) {
    && (forall k :: k in seen ==> exists c :: c in cs && Key(c) == k)
    && (forall c :: c in cs ==> Key(c) in seen && ':' !in c.kind)
  }

  lemma SeenStep(seen: set<string>, cs: seq<Citation>, c: Citation)
    requires SeenExactly(seen, cs) && ':' !in c.kind
    ensures Key(c) in seen <==> c in cs
    ensures SeenExactly(seen + {Key(c)}, cs + [c])
  {
    if Key(c) in seen {
      var d :| d in cs && Key(d) == Key(c);
      KeyInjective(c, d);
    }
    assert c in cs + [c];
    assert forall d :: d in cs ==> d in cs + [c];
  }

  /** A kind has no ':', so the key says where it ends. */
  lemma KeyInjective(c: Citation, d: Citation)
    requires ':' !in c.kind && ':' !in d.kind && Key(c) == Key(d)
    ensures c == d
  {
    var k := Key(c);
    assert k[|c.kind|] == ':' && k[|d.kind|] == ':';
    assert forall i :: 0 <= i < |c.kind| ==> k[i] == c.kind[i];
    assert forall i :: 0 <= i < |d.kind| ==> k[i] == d.kind[i];
    assert |c.kind| == |d.kind|;
    assert c.kind == k[..|c.kind|] && d.kind == k[..|d.kind|];
    assert c.id == k[|c.kind| + 1..] && d.id == k[|d.kind| + 1..];
  }

  // ---------------------------------------------------------------- what every result looks like

  /** What a tag can name. */
  predicate Clean(c: Citation) {
    Trimmed(c.kind) && Trimmed(c.id) && ':' !in c.kind && ']' !in c.kind && ']' !in c.id
  }

  lemma TagIsClean(s: string, i: nat)
    ensures TagAt(s, i).Tag? ==> Clean(TagAt(s, i).cite)
  {
    if TagAt(s, i).Tag? {
      var e := IndexOf(s, ']', i + 6, |s|);
      var c := IndexOf(s, ':', i + 6, e);
      IndexOfIs(s, ']', i + 6, |s|);
      IndexOfIs(s, ':', i + 6, e);
      PartAvoids(s, i + 6, c, ':');
      PartAvoids(s, i + 6, c, ']');
      PartAvoids(s, c + 1, e, ']');
    }
  }

  lemma PartAvoids(s: string, lo: nat, hi: nat, c: char)
    requires lo <= hi <= |s| && forall k :: lo <= k < hi ==> s[k] != c
    ensures c !in TrimSpace(s[lo..hi]) && Trimmed(TrimSpace(s[lo..hi]))
  {
    TrimIsTrimmed(s[lo..hi]);
  }

  lemma {:induction false} TagsAreClean(s: string, i: nat)
    requires i <= |s|
    ensures forall c :: c in Tags(s, i) ==> Clean(c)
    decreases |s| - i
  {
    if i < |s| {
      TagIsClean(s, i);
      match TagAt(s, i)
      case Tag(next, _) => TagsAreClean(s, next);
      case NoTag => TagsAreClean(s, i + 1);
    }
  }

  lemma {:induction false} DedupIs(cs: seq<Citation>)
    ensures forall c :: c in Dedup(cs) <==> c in cs && !Blank(c)
    ensures forall i, j :: 0 <= i < j < |Dedup(cs)| ==> Dedup(cs)[i] != Dedup(cs)[j]
  {
    if cs != [] {
      DedupIs(cs[..|cs| - 1]);
      assert cs == cs[..|cs| - 1] + [cs[|cs| - 1]];
    }
  }

  /** Where a citation occurs for the first time. */
  predicate FirstAt(cs: seq<Citation>, c: Citation, i: nat) { i < |cs| && cs[i] == c && c !in cs[..i] }

  /** The citations stand in the order in which their tags first occur. */
  lemma {:induction false} DedupKeepsOrder(cs: seq<Citation>, i: nat, j: nat) returns (p: nat, q: nat)
    requires i < j < |Dedup(cs)|
    ensures p < q && FirstAt(cs, Dedup(cs)[i], p) && FirstAt(cs, Dedup(cs)[j], q)
  {
    var n := |cs| - 1;
    var ds := Dedup(cs[..n]);
    if j < |ds| {
      p, q := DedupKeepsOrder(cs[..n], i, j);
      assert cs[..p] == cs[..n][..p] && cs[..q] == cs[..n][..q];
    } else {
      DedupIs(cs[..n]);
      q := n;
      p := FirstPlace(cs[..n], ds[i]);
      assert cs[..p] == cs[..n][..p];
    }
  }

  lemma FirstPlace(cs: seq<Citation>, c: Citation) returns (p: nat)
    requires c in cs
    ensures FirstAt(cs, c, p)
  {
    p := 0;
    while p < |cs| && cs[p] != c
      invariant p <= |cs| && c !in cs[..p]
      decreases |cs| - p
    {
      assert cs[..p + 1] == cs[..p] + [cs[p]];
      p := p + 1;
    }
    assert cs[..|cs|] == cs;
  }

  /** For any text at all: the citations are distinct, trimmed and non-blank, and neither part can
      hold the character that ends it. */
  lemma CitationsAreClean(text: string)
    ensures forall c :: c in CitationsOf(text) ==> Clean(c) && !Blank(c)
    ensures forall i, j :: 0 <= i < j < |CitationsOf(text)| ==> CitationsOf(text)[i] != CitationsOf(text)[j]
  {
    TagsAreClean(TrimSpace(text), 0);
    DedupIs(Tags(TrimSpace(text), 0));
  }

  // ---------------------------------------------------------------- rendering

  /** An answer: plain text with tags in it. */
  datatype Doc = End(text: string) | Cite(text: string, kind: string, id: string, rest: Doc)

  function TagText(kind: string, id: string): string { OPEN + kind + ":" + id + "]" }

  function Render(d: Doc): string {
    match d
    case End(t) => t
    case Cite(t, k, id, rest) => t + (TagText(k, id) + Render(rest))
  }

  function PlainText(d: Doc): string {
    match d
    case End(t) => t
    case Cite(t, _, _, rest) => t + PlainText(rest)
  }

  function Cited(d: Doc): seq<Citation> {
    match d
    case End(_) => []
    case Cite(_, k, id, rest) => [Citation(TrimSpace(k), TrimSpace(id))] + Cited(rest)
  }

  ghost predicate Plain(t: string) { forall i: nat :: !OpensTag(t, i) }

  /** No text between tags opens a tag; a kind has no ':' or ']' and an id no ']'. */
  ghost predicate Proper(d: Doc) {
    match d
    case End(t) => Plain(t)
    case Cite(t, k, id, rest) => Plain(t) && ':' !in k && ']' !in k && ']' !in id && Proper(rest)
  }

  /** Text before a '[' or the end of the answer is walked character by character. */
  lemma {:induction false} WalkText(s: string, i: nat, j: nat)
    requires i <= j <= |s|
    requires forall k :: i <= k < j ==> !OpensTag(s, k)
    ensures Visible(s, i) == s[i..j] + Visible(s, j) && Tags(s, i) == Tags(s, j)
    decreases j - i
  {
    if i == j {
      assert s[i..j] == "";
    } else {
      WalkText(s, i + 1, j);
      SliceHead(s, i, j);
      Reassoc([s[i]], s[i + 1..j], Visible(s, j));
    }
  }

  /** No tag opens inside a plain text, not even across its end. */
  lemma PlainInside(s: string, i: nat, t: string)
    requires i + |t| <= |s| && s[i..i + |t|] == t && Plain(t)
    requires i + |t| < |s| ==> s[i + |t|] == '['
    ensures forall k :: i <= k < i + |t| ==> !OpensTag(s, k)
  {
    forall k | i <= k < i + |t| ensures !OpensTag(s, k) {
      if k + 6 <= i + |t| { OpensInPart(s, i, t, k); }
    }
  }

  lemma OpensInPart(s: string, i: nat, t: string, k: nat)
    requires i + |t| <= |s| && s[i..i + |t|] == t && i <= k && k + 6 <= i + |t|
    ensures OpensTag(s, k) == OpensTag(t, k - i)
  {
    var m := k - i;
    assert t[m] == s[k] && t[m + 1] == s[k + 1] && t[m + 2] == s[k + 2];
    assert t[m + 3] == s[k + 3] && t[m + 4] == s[k + 4] && t[m + 5] == s[k + 5];
  }

  lemma TagFound(s: string, i: nat, kind: string, id: string)
    requires i + |TagText(kind, id)| <= |s| && s[i..i + |TagText(kind, id)|] == TagText(kind, id)
    requires ':' !in kind && ']' !in kind && ']' !in id
    ensures TagAt(s, i) == Tag(i + |TagText(kind, id)|, Citation(TrimSpace(kind), TrimSpace(id)))
  {
    var c, e := i + 6 + |kind|, i + |TagText(kind, id)| - 1;
    TagPieces(s, i, kind, id);
    SliceAvoids(s, i + 6, c, kind, ':');
    SliceAvoids(s, i + 6, c, kind, ']');
    SliceAvoids(s, c + 1, e, id, ']');
    IndexOfAt(s, ']', i + 6, |s|, e);
    IndexOfAt(s, ':', i + 6, e, c);
  }

  lemma SliceAvoids(s: string, lo: nat, hi: nat, part: string, c: char)
    requires lo <= hi <= |s| && s[lo..hi] == part && c !in part
    ensures forall k :: lo <= k < hi ==> s[k] != c
  {
    forall k | lo <= k < hi ensures s[k] != c { assert s[k] == s[lo..hi][k - lo]; }
  }

  lemma TagPieces(s: string, i: nat, kind: string, id: string)
    requires i + |TagText(kind, id)| <= |s| && s[i..i + |TagText(kind, id)|] == TagText(kind, id)
    ensures OpensTag(s, i)
    ensures var c, e := i + 6 + |kind|, i + |TagText(kind, id)| - 1;
            s[i + 6..c] == kind && s[c] == ':' && s[c + 1..e] == id && s[e] == ']'
  {
    var t := TagText(kind, id);
    SlicePart(s, i, t, 0, 6);
    assert t[0..6] == OPEN;
    OpensInPart(s, i, OPEN, i);
    SlicePart(s, i, t, 6, 6 + |kind|);
    assert t[6..6 + |kind|] == kind;
    SlicePart(s, i, t, 7 + |kind|, |t| - 1);
    assert t[7 + |kind|..|t| - 1] == id;
    assert t[6 + |kind|] == s[i + 6 + |kind|] && t[|t| - 1] == s[i + |t| - 1];
  }

  lemma SlicePart(s: string, i: nat, t: string, a: nat, b: nat)
    requires i + |t| <= |s| && s[i..i + |t|] == t && a <= b <= |t|
    ensures s[i + a..i + b] == t[a..b]
  {
    forall k | 0 <= k < b - a ensures s[i + a..i + b][k] == t[a..b][k] {
      assert s[i..i + |t|][a + k] == s[i + a + k];
    }
  }

  /** Walking a rendered answer gives its plain text and its tags. */
  lemma {:induction false} WalkDoc(s: string, i: nat, d: Doc)
    requires i <= |s| && s[i..] == Render(d) && Proper(d)
    ensures Visible(s, i) == PlainText(d) && Tags(s, i) == Cited(d)
    decreases d
  {
    match d
    case End(t) =>
      assert s[i..i + |t|] == t;
      PlainInside(s, i, t);
      WalkText(s, i, |s|);
    case Cite(t, k, id, rest) =>
      var j := i + |t|;
      var n := j + |TagText(k, id)|;
      SliceThree(s, i, t, TagText(k, id), Render(rest));
      assert TagText(k, id)[0] == '[';
      assert s[j] == s[j..n][0];
      PlainInside(s, i, t);
      WalkText(s, i, j);
      TagFound(s, j, k, id);
      WalkDoc(s, n, rest);
  }

  lemma SliceThree(s: string, i: nat, x: string, y: string, z: string)
    requires i <= |s| && s[i..] == x + (y + z)
    ensures i + |x| + |y| + |z| == |s|
    ensures s[i..i + |x|] == x && s[i + |x|..i + |x| + |y|] == y && s[i + |x| + |y|..] == z
  {
    var u := s[i..];
    assert u[..|x|] == x && u[|x|..|x| + |y|] == y && u[|x| + |y|..] == z;
  }

  // ---------------------------------------------------------------- trimming a rendered answer

  function TrimL(t: string): string { t[SkipSpace(t, 0, |t|)..] }

  function TrimR(t: string): string { t[..DropSpace(t, 0, |t|)] }

  lemma TrimIsLR(t: string)
    ensures TrimSpace(t) == TrimR(TrimL(t))
  {
    var a := SkipSpace(t, 0, |t|);
    var u := t[a..];
    var b := DropSpace(t, a, |t|);
    DropSpaceIs(t, a, |t|);
    DropSpaceAt(u, 0, |u|, b - a);
  }

  lemma TrimLConcat(a: string, b: string)
    requires b != "" && !IsSpace(b[0])
    ensures TrimL(a + b) == TrimL(a) + b
  {
    var k := SkipSpace(a, 0, |a|);
    SkipSpaceIs(a, 0, |a|);
    SkipSpaceAt(a + b, 0, |a + b|, k);
    assert (a + b)[k..] == a[k..] + b;
  }

  lemma TrimRConcat(a: string, b: string)
    requires a != "" && !IsSpace(a[|a| - 1])
    ensures TrimR(a + b) == a + TrimR(b)
  {
    var k := DropSpace(b, 0, |b|);
    DropSpaceIs(b, 0, |b|);
    DropSpaceAt(a + b, 0, |a + b|, |a| + k);
    assert (a + b)[..|a| + k] == a + b[..k];
  }

  function DocL(d: Doc): Doc { d.(text := TrimL(d.text)) }

  function DocR(d: Doc): Doc {
    match d
    case End(t) => End(TrimR(t))
    case Cite(t, k, id, rest) => Cite(t, k, id, DocR(rest))
  }

  lemma PartIsPlain(t: string, a: nat, b: nat)
    requires a <= b <= |t| && Plain(t)
    ensures Plain(t[a..b])
  {
    forall i: nat ensures !OpensTag(t[a..b], i) { assert !OpensTag(t, a + i); }
  }

  lemma DocLRenders(d: Doc)
    requires Proper(d)
    ensures Render(DocL(d)) == TrimL(Render(d)) && Proper(DocL(d)) && Cited(DocL(d)) == Cited(d)
    ensures Ink(PlainText(DocL(d))) == Ink(PlainText(d))
  {
    var t := d.text;
    var k := SkipSpace(t, 0, |t|);
    assert t[k..] == t[k..|t|];
    PartIsPlain(t, k, |t|);
    InkTrimL(t);
    if d.Cite? {
      var b := TagText(d.kind, d.id) + Render(d.rest);
      assert b[0] == '[';
      TrimLConcat(t, b);
      InkConcat(t, PlainText(d.rest));
      InkConcat(TrimL(t), PlainText(d.rest));
    }
  }

  lemma InkTrimL(t: string)
    ensures Ink(TrimL(t)) == Ink(t)
  {
    var k := SkipSpace(t, 0, |t|);
    SkipSpaceIs(t, 0, |t|);
    assert t == t[..k] + t[k..];
    InkConcat(t[..k], t[k..]);
    InkOfSpaces(t[..k]);
  }

  lemma InkTrimR(t: string)
    ensures Ink(TrimR(t)) == Ink(t)
  {
    var k := DropSpace(t, 0, |t|);
    DropSpaceIs(t, 0, |t|);
    assert t == t[..k] + t[k..];
    InkConcat(t[..k], t[k..]);
    InkOfSpaces(t[k..]);
  }

  lemma {:induction false} DocRRenders(d: Doc)
    requires Proper(d)
    ensures Render(DocR(d)) == TrimR(Render(d)) && Proper(DocR(d)) && Cited(DocR(d)) == Cited(d)
    ensures Ink(PlainText(DocR(d))) == Ink(PlainText(d))
    decreases d
  {
    match d
    case End(t) =>
      assert t[..DropSpace(t, 0, |t|)] == t[0..DropSpace(t, 0, |t|)];
      PartIsPlain(t, 0, DropSpace(t, 0, |t|));
      InkTrimR(t);
    case Cite(t, k, id, rest) =>
      DocRRenders(rest);
      TrimRAfterTag(t, k, id, Render(rest), Render(DocR(rest)));
      InkConcat(t, PlainText(rest));
      InkConcat(t, PlainText(DocR(rest)));
  }

  lemma TrimRAfterTag(t: string, kind: string, id: string, r: string, r': string)
    requires r' == TrimR(r)
    ensures TrimR(t + (TagText(kind, id) + r)) == t + (TagText(kind, id) + r')
  {
    var a := t + TagText(kind, id);
    assert a[|a| - 1] == ']';
    TrimRConcat(a, r);
    Reassoc(t, TagText(kind, id), r);
    Reassoc(t, TagText(kind, id), r');
  }

  lemma {:induction false} InkCollapse(s: string)
    ensures Ink(Collapse(s)) == Ink(s)
  {
    if |s| >= 2 && s[0] == ' ' && s[1] == ' ' {
      InkCollapse(s[2..]);
      assert s == "  " + s[2..];
      InkConcat("  ", s[2..]);
      InkConcat(" ", Collapse(s[2..]));
      InkOfSpaces("  ");
      InkOfSpaces(" ");
    } else if s != "" {
      InkCollapse(s[1..]);
      var one: string := [s[0]];
      assert s == one + s[1..];
      InkConcat(one, s[1..]);
      InkConcat(one, Collapse(s[1..]));
    }
  }

  /** The central law: parsing any rendered answer lists its non-blank tags, first occurrences in
      order, and keeps every character that is not white space outside the tags, in order. */
  lemma ParseRendered(d: Doc)
    requires Proper(d)
    ensures CitationsOf(Render(d)) == Dedup(Cited(d))
    ensures Ink(AnswerOf(Render(d))) == Ink(PlainText(d))
  {
    var e := DocR(DocL(d));
    DocLRenders(d);
    DocRRenders(DocL(d));
    TrimIsLR(Render(d));
    var s := TrimSpace(Render(d));
    assert s[0..] == s;
    WalkDoc(s, 0, e);
    InkCollapse(Visible(s, 0));
    InkTrim(Collapse(Visible(s, 0)));
  }

  // ---------------------------------------------------------------- tags left in the answer

  /** Where a left-to-right search for a tag stands: so much of the opening seen, in the kind, in the
      id, or a tag found. */
  datatype Search = Opening(n: nat) | InKind | InID | Found

  /** The characters of an opening. */
  function OpenAt(n: nat): char {
    match n
    case 0 => '['
    case 1 => 'c'
    case 2 => 'i'
    case 3 => 't'
    case 4 => 'e'
    case _ => ':'
  }

  /** Reading one more character. A '[' can only begin an opening. */
  function Read(q: Search, c: char): Search {
    match q
    case Opening(n) =>
      if n < 6 && c == OpenAt(n) then (if n == 5 then InKind else Opening(n + 1))
      else if c == '[' then Opening(1) else Opening(0)
    case InKind => if c == ']' then Opening(0) else if c == ':' then InID else InKind
    case InID => if c == ']' then Found else InID
    case Found => Found
  }

  function ReadOn(q: Search, s: string): Search
    decreases s
  {
    if s == "" then q else ReadOn(Read(q, s[0]), s[1..])
  }

  /** The same, inside a text. */
  function ReadFrom(q: Search, s: string, i: nat): Search
    requires i <= |s|
    decreases |s| - i
  {
    if i == |s| then q else ReadFrom(Read(q, s[i]), s, i + 1)
  }

  lemma {:induction false} ReadFromIs(q: Search, s: string, i: nat)
    requires i <= |s|
    ensures ReadFrom(q, s, i) == ReadOn(q, s[i..])
    decreases |s| - i
  {
    if i < |s| {
      ReadFromIs(Read(q, s[i]), s, i + 1);
      assert s[i..][0] == s[i] && s[i..][1..] == s[i + 1..];
    }
  }

  lemma {:induction false} FoundStays(s: string, i: nat)
    requires i <= |s|
    ensures ReadFrom(Found, s, i) == Found
    decreases |s| - i
  {
    if i < |s| { FoundStays(s, i + 1); }
  }

  // The walk, as the search sees it: whether a tag lies from a position on. The search is compared with
  // any such answer, so that its proof does not look into the walk.

  ghost predicate Unclosed(s: string, i: nat) { forall k :: i <= k < |s| ==> s[k] != ']' }

  /** The first ']' from i on. */
  ghost predicate Closes(s: string, i: nat, e: nat) {
    i <= e < |s| && s[e] == ']' && forall k :: i <= k < e ==> s[k] != ']'
  }

  ghost predicate NoColon(s: string, i: nat, e: nat) { forall k :: i <= k < e && k < |s| ==> s[k] != ':' }

  /** The opening at i is closed at e, with or without a ':' in between. */
  ghost predicate Ends(s: string, i: nat, e: nat) { OpensTag(s, i) && Closes(s, i + 6, e) }

  ghost predicate NeverEnds(s: string, i: nat) { OpensTag(s, i) && Unclosed(s, i + 6) }

  ghost predicate WalksLike(s: string, has: nat -> bool) {
    && !has(|s|)
    && (forall i: nat :: i < |s| && !OpensTag(s, i) ==> has(i) == has(i + 1))
    && (forall i: nat :: NeverEnds(s, i) ==> !has(i))
    && (forall i: nat, e: nat :: Ends(s, i, e) ==> has(i) == (NoColon(s, i + 6, e) ==> has(e + 1)))
  }

  lemma {:induction false} NeverCloses(s: string, i: nat)
    requires i <= |s| && Unclosed(s, i)
    ensures Tags(s, i) == []
    decreases |s| - i
  {
    if i < |s| {
      if OpensTag(s, i) { IndexOfIs(s, ']', i + 6, |s|); }
      NeverCloses(s, i + 1);
    }
  }

  lemma UnclosedIsNoTag(s: string, i: nat)
    requires OpensTag(s, i) && Unclosed(s, i + 6)
    ensures Tags(s, i) == []
  {
    IndexOfIs(s, ']', i + 6, |s|);
    NeverCloses(s, i + 6);
    WalkText(s, i + 1, i + 6);
  }

  /** An opening without a ':' before its ']' is no tag, and no tag opens inside it. */
  lemma NoTagInside(s: string, i: nat, e: nat)
    requires OpensTag(s, i) && Closes(s, i + 6, e) && NoColon(s, i + 6, e)
    ensures Tags(s, i) == Tags(s, e + 1)
  {
    IndexOfAt(s, ']', i + 6, |s|, e);
    IndexOfIs(s, ':', i + 6, e);
    forall k | i + 1 <= k < e + 1 ensures !OpensTag(s, k) { OpensNowhere(s, i, e, k); }
    WalkText(s, i + 1, e + 1);
  }

  lemma OpensNowhere(s: string, i: nat, e: nat, k: nat)
    requires OpensTag(s, i) && i + 6 <= e < |s| && s[e] == ']' && i < k <= e && NoColon(s, i + 6, e)
    ensures !OpensTag(s, k)
  {
  }

  lemma TagHere(s: string, i: nat, e: nat)
    requires OpensTag(s, i) && Closes(s, i + 6, e) && !NoColon(s, i + 6, e)
    ensures Tags(s, i) != []
  {
    IndexOfAt(s, ']', i + 6, |s|, e);
    IndexOfIs(s, ':', i + 6, e);
    assert TagAt(s, i).Tag?;
  }

  predicate HasTag(s: string, i: nat) { i <= |s| && Tags(s, i) != [] }

  lemma EndsIsWalk(s: string, i: nat, e: nat)
    requires Ends(s, i, e)
    ensures HasTag(s, i) == (NoColon(s, i + 6, e) ==> HasTag(s, e + 1))
  {
    if NoColon(s, i + 6, e) { NoTagInside(s, i, e); } else { TagHere(s, i, e); }
  }

  lemma TagsWalk(s: string, has: nat -> bool)
    requires forall i: nat :: has(i) == HasTag(s, i)
    ensures WalksLike(s, has)
  {
    forall i: nat | NeverEnds(s, i) ensures !has(i) { UnclosedIsNoTag(s, i); }
    forall i: nat, e: nat | Ends(s, i, e)
      ensures has(i) == (NoColon(s, i + 6, e) ==> has(e + 1))
    {
      EndsIsWalk(s, i, e);
    }
    forall i: nat | i < |s| && !OpensTag(s, i) ensures has(i) == has(i + 1) { WalkText(s, i, i + 1); }
  }

  lemma {:induction false} NeverFound(s: string, q: Search, i: nat)
    requires i <= |s| && q != Found && Unclosed(s, i)
    ensures ReadFrom(q, s, i) != Found
    decreases |s| - i
  {
    if i < |s| { NeverFound(s, Read(q, s[i]), i + 1); }
  }

  lemma {:induction false} ReadID(s: string, i: nat, e: nat)
    requires Closes(s, i, e)
    ensures ReadFrom(InID, s, i) == Found
    decreases e - i
  {
    if i < e { ReadID(s, i + 1, e); } else { FoundStays(s, e + 1); }
  }

  lemma {:induction false} ReadKind(s: string, i: nat, e: nat)
    requires Closes(s, i, e)
    ensures ReadFrom(InKind, s, i) == if NoColon(s, i, e) then ReadFrom(Opening(0), s, e + 1) else Found
    decreases e - i
  {
    if i < e {
      if s[i] == ':' { ReadID(s, i + 1, e); } else { ReadKind(s, i + 1, e); }
    }
  }

  /** The first n characters of an opening stand at a. */
  predicate Begun(s: string, a: nat, n: nat) {
    n <= 6 && a + n <= |s| && forall k :: 0 <= k < n ==> s[a + k] == OpenAt(k)
  }

  lemma BegunIsOpen(s: string, a: nat)
    ensures Begun(s, a, 6) <==> OpensTag(s, a)
  {
    if Begun(s, a, 6) {
      assert s[a + 0] == OpenAt(0) && s[a + 1] == OpenAt(1) && s[a + 2] == OpenAt(2);
      assert s[a + 3] == OpenAt(3) && s[a + 4] == OpenAt(4) && s[a + 5] == OpenAt(5);
    }
  }

  lemma {:induction false} HasOn(s: string, has: nat -> bool, a: nat, j: nat)
    requires WalksLike(s, has) && a <= j <= |s| && forall k: nat :: a <= k < j ==> !OpensTag(s, k)
    ensures has(a) == has(j)
    decreases j - a
  {
    if a < j { HasOn(s, has, a + 1, j); }
  }

  /** Where the search goes on after an opening that breaks off after n characters. */
  ghost predicate GoesOn(s: string, a: nat, n: nat, j: nat) {
    || (a + n == |s| && j == |s|)
    || (a + n < |s| && s[a + n] != OpenAt(n) && j == if s[a + n] == '[' then a + n else a + n + 1)
  }

  /** No tag begins before that point. */
  lemma BrokenOff(s: string, has: nat -> bool, a: nat, n: nat, j: nat)
    requires WalksLike(s, has) && n < 6 && Begun(s, a, n) && a <= j <= |s| && GoesOn(s, a, n, j)
    ensures has(a) == has(j)
  {
    forall k: nat | a <= k < j ensures !OpensTag(s, k) {
      BegunIsOpen(s, k);
      assert a < k < a + n ==> s[a + (k - a)] == OpenAt(k - a);
    }
    HasOn(s, has, a, j);
  }

  lemma BegunMore(s: string, a: nat, n: nat)
    requires n < 6 && Begun(s, a, n) && a + n < |s| && s[a + n] == OpenAt(n)
    ensures Begun(s, a, n + 1)
  {
  }

  /** The search stands n characters into an opening when those characters are there, and then finds
      a tag exactly when one lies from where the opening began. */
  lemma {:induction false} SearchFinds(s: string, has: nat -> bool, a: nat, n: nat)
    requires WalksLike(s, has) && n < 6 && Begun(s, a, n)
    ensures ReadFrom(Opening(n), s, a + n) == Found <==> has(a)
    decreases |s| - a - n, 1
  {
    var i := a + n;
    if i == |s| {
      BrokenOff(s, has, a, n, i);
    } else if s[i] == OpenAt(n) {
      BegunMore(s, a, n);
      if n < 5 {
        SearchFinds(s, has, a, n + 1);
      } else {
        BegunIsOpen(s, a);
        SearchInside(s, has, a);
      }
    } else {
      SearchAgain(s, has, a, n);
    }
  }

  /** The search after an opening that breaks off. */
  lemma {:induction false} SearchAgain(s: string, has: nat -> bool, a: nat, n: nat)
    requires WalksLike(s, has) && n < 6 && Begun(s, a, n) && a + n < |s| && s[a + n] != OpenAt(n)
    ensures ReadFrom(Opening(n), s, a + n) == Found <==> has(a)
    decreases |s| - a - n, 0
  {
    var i := a + n;
    if s[i] == '[' {
      BrokenOff(s, has, a, n, i);
      BegunMore(s, i, 0);
      SearchFinds(s, has, i, 1);
    } else {
      BrokenOff(s, has, a, n, i + 1);
      SearchFinds(s, has, i + 1, 0);
    }
  }

  /** The search behind an opening at a. */
  lemma {:induction false} SearchInside(s: string, has: nat -> bool, a: nat)
    requires WalksLike(s, has) && OpensTag(s, a)
    ensures ReadFrom(InKind, s, a + 6) == Found <==> has(a)
    decreases |s| - a - 6, 1
  {
    var e := IndexOf(s, ']', a + 6, |s|);
    IndexOfIs(s, ']', a + 6, |s|);
    if e < 0 {
      assert NeverEnds(s, a);
      NeverFound(s, InKind, a + 6);
    } else {
      assert Ends(s, a, e);
      ReadKind(s, a + 6, e);
      if NoColon(s, a + 6, e) { SearchFinds(s, has, e + 1, 0); }
    }
  }

  /** A text holds a tag exactly when the search finds one. */
  lemma TagsAreFound(s: string)
    ensures Tags(s, 0) != [] <==> ReadOn(Opening(0), s) == Found
  {
    assert s[0..] == s;
    var has := (i: nat) => HasTag(s, i);
    TagsWalk(s, has);
    SearchFinds(s, has, 0, 0);
    ReadFromIs(Opening(0), s, 0);
  }

  lemma {:induction false} ReadOnConcat(q: Search, a: string, b: string)
    ensures ReadOn(q, a + b) == ReadOn(ReadOn(q, a), b)
    decreases a
  {
    if a == "" {
      assert a + b == b;
    } else {
      ReadOnConcat(Read(q, a[0]), a[1..], b);
      assert (a + b)[0] == a[0] && (a + b)[1..] == a[1..] + b;
    }
  }

  /** A second space changes nothing for the search. */
  lemma {:induction false} ReadOnCollapse(q: Search, s: string)
    ensures ReadOn(q, Collapse(s)) == ReadOn(q, s)
    decreases s
  {
    if |s| >= 2 && s[0] == ' ' && s[1] == ' ' {
      ReadOnCollapse(Read(q, ' '), s[2..]);
      assert Read(Read(q, ' '), ' ') == Read(q, ' ');
      assert s[1..][1..] == s[2..];
    } else if s != "" {
      ReadOnCollapse(Read(q, s[0]), s[1..]);
    }
  }

  /** White space neither begins a tag nor completes one. */
  lemma {:induction false} ReadOnSpaces(q: Search, s: string)
    requires forall i :: 0 <= i < |s| ==> IsSpace(s[i])
    ensures ReadOn(q, s) == Found <==> q == Found
    ensures q == Opening(0) ==> ReadOn(q, s) == q
    decreases s
  {
    if s != "" { ReadOnSpaces(Read(q, s[0]), s[1..]); }
  }

  /** White space around a text. */
  lemma SpacesAround(lead: string, s: string, trail: string)
    requires forall i :: 0 <= i < |lead| ==> IsSpace(lead[i])
    requires forall i :: 0 <= i < |trail| ==> IsSpace(trail[i])
    ensures Tags(lead + s + trail, 0) == [] <==> Tags(s, 0) == []
  {
    ReadOnConcat(Opening(0), lead + s, trail);
    ReadOnConcat(Opening(0), lead, s);
    ReadOnSpaces(Opening(0), lead);
    ReadOnSpaces(ReadOn(Opening(0), s), trail);
    TagsAreFound(lead + s + trail);
    TagsAreFound(s);
  }

  lemma TagsCollapse(s: string)
    ensures Tags(Collapse(s), 0) == [] <==> Tags(s, 0) == []
  {
    TagsAreFound(s);
    TagsAreFound(Collapse(s));
    ReadOnCollapse(Opening(0), s);
  }

  lemma TagsTrim(s: string)
    ensures Tags(TrimSpace(s), 0) == [] <==> Tags(s, 0) == []
  {
    var (a, b) := TrimBounds(s, 0, |s|);
    TrimBoundsTrimmed(s, 0, |s|);
    CutTwice(s, a, b);
    SpacesAround(s[..a], s[a..b], s[b..]);
  }

  lemma PlainTextL(d: Doc)
    ensures Tags(PlainText(DocL(d)), 0) == [] <==> Tags(PlainText(d), 0) == []
  {
    var t := d.text;
    var k := SkipSpace(t, 0, |t|);
    SkipSpaceIs(t, 0, |t|);
    assert t == t[..k] + t[k..];
    if d.Cite? { Reassoc(t[..k], t[k..], PlainText(d.rest)); }
    var p := PlainText(DocL(d));
    assert PlainText(d) == t[..k] + p;
    assert t[..k] + p + "" == t[..k] + p;
    SpacesAround(t[..k], p, "");
  }

  lemma {:induction false} PlainTextR(d: Doc) returns (trail: string)
    ensures PlainText(d) == PlainText(DocR(d)) + trail && forall i :: 0 <= i < |trail| ==> IsSpace(trail[i])
    decreases d
  {
    match d
    case End(t) =>
      var k := DropSpace(t, 0, |t|);
      DropSpaceIs(t, 0, |t|);
      trail := t[k..];
      assert t == t[..k] + t[k..];
    case Cite(t, _, _, rest) =>
      trail := PlainTextR(rest);
      Reassoc(t, PlainText(DocR(rest)), trail);
  }

  /** What is visible of a rendered answer before spaces are collapsed. */
  lemma VisibleRendered(d: Doc)
    requires Proper(d)
    ensures Visible(TrimSpace(Render(d)), 0) == PlainText(DocR(DocL(d)))
  {
    DocLRenders(d);
    DocRRenders(DocL(d));
    TrimIsLR(Render(d));
    var s := TrimSpace(Render(d));
    assert s[0..] == s;
    WalkDoc(s, 0, DocR(DocL(d)));
  }

  lemma PlainTextTrimmedR(d: Doc)
    ensures Tags(PlainText(DocR(d)), 0) == [] <==> Tags(PlainText(d), 0) == []
  {
    var trail := PlainTextR(d);
    var p := PlainText(DocR(d));
    assert "" + p + trail == p + trail;
    SpacesAround("", p, trail);
  }

  lemma PlainTextTrimmed(d: Doc, l: Doc)
    requires l == DocL(d)
    ensures Tags(PlainText(DocR(l)), 0) == [] <==> Tags(PlainText(d), 0) == []
  {
    PlainTextL(d);
    PlainTextTrimmedR(l);
  }

  /** The tags are meant to be stripped from the answer. For every rendered answer, none is left in
      it if and only if none is spelled by the text around the tags once they are taken out:
      collapsing spaces and trimming neither make nor break one. */
  lemma StrippedExactly(d: Doc)
    requires Proper(d)
    ensures Tags(AnswerOf(Render(d)), 0) == [] <==> Tags(PlainText(d), 0) == []
  {
    VisibleRendered(d);
    PlainTextTrimmed(d, DocL(d));
    CleanedTags(Visible(TrimSpace(Render(d)), 0));
  }

  /** The same for any text at all: none is left if and only if none is spelled by what the walk kept. */
  lemma StrippedAnyText(text: string)
    ensures Tags(AnswerOf(text), 0) == [] <==> Tags(Visible(TrimSpace(text), 0), 0) == []
  {
    CleanedTags(Visible(TrimSpace(text), 0));
  }

  lemma CleanedTags(out: string)
    ensures Tags(TrimSpace(Collapse(out)), 0) == [] <==> Tags(out, 0) == []
  {
    TagsTrim(Collapse(out));
    TagsCollapse(out);
  }

  function Spaces(n: nat): string { seq(n, _ => ' ') }

  /** Collapsing is done piece by piece between characters that are not spaces. */
  lemma {:induction false} CollapseConcat(a: string, b: string)
    requires a != "" ==> a[|a| - 1] != ' '
    ensures Collapse(a + b) == Collapse(a) + Collapse(b)
    decreases a
  {
    var s := a + b;
    if a == "" {
      assert s == b;
    } else if |a| >= 2 && a[0] == ' ' && a[1] == ' ' {
      assert s[2..] == a[2..] + b;
      CollapseConcat(a[2..], b);
      Reassoc(" ", Collapse(a[2..]), Collapse(b));
    } else {
      assert s[1..] == a[1..] + b && s[0] == a[0] && (|a| >= 2 ==> s[1] == a[1]);
      CollapseConcat(a[1..], b);
      Reassoc([a[0]], Collapse(a[1..]), Collapse(b));
    }
  }

  lemma CollapsePair(t: string)
    ensures Collapse("  " + t) == " " + Collapse(t)
  {
    assert ("  " + t)[2..] == t;
  }

  lemma OneMoreSpace(n: nat, t: string)
    ensures " " + (Spaces(n) + t) == Spaces(n + 1) + t
  {
  }

  lemma {:induction false} CollapseRun(n: nat, b: string)
    requires b != "" ==> b[0] != ' '
    ensures Collapse(Spaces(n) + b) == Spaces((n + 1) / 2) + Collapse(b)
  {
    if n == 0 {
      assert Spaces(0) + b == b && Spaces(0) + Collapse(b) == Collapse(b);
    } else if n == 1 {
      assert Spaces(1) == " " && (" " + b)[1..] == b;
    } else {
      CollapseRun(n - 2, b);
      CollapsePair(Spaces(n - 2) + b);
      OneMoreSpace(n - 2, b);
      OneMoreSpace(n - 1, b);
      assert "  " + (Spaces(n - 2) + b) == " " + (" " + (Spaces(n - 2) + b));
      OneMoreSpace((n - 1) / 2, Collapse(b));
    }
  }

  /** What collapsing does: a run of spaces is halved, rounding up, and everything around it stays. */
  lemma CollapseHalvesRuns(a: string, n: nat, b: string)
    requires (a != "" ==> a[|a| - 1] != ' ') && (b != "" ==> b[0] != ' ')
    ensures Collapse(a + (Spaces(n) + b)) == Collapse(a) + (Spaces((n + 1) / 2) + Collapse(b))
  {
    CollapseConcat(a, Spaces(n) + b);
    CollapseRun(n, b);
  }

  lemma {:induction false} CollapseNone(s: string)
    requires ' ' !in s
    ensures Collapse(s) == s
  {
    if s != "" {
      assert s == [s[0]] + s[1..];
      CollapseNone(s[1..]);
    }
  }

  /** The case that fails does occur: stripping is one pass, and the text on both sides of a tag can
      join into a new one. */
  lemma StrippingMayFormATag() returns (d: Doc)
    ensures Proper(d) && AnswerOf(Render(d)) == "[cite:c:d]" && Tags(AnswerOf(Render(d)), 0) != []
  {
    d := Cite("[ci", "a", "b", End("te:c:d]"));
    assert PlainText(d) == "[cite:c:d]";
    AnswerWithoutSpaces(d, "[cite:c:d]");
    JoinedIsTag("[cite:c:d]");
  }

  /** With no white space at its ends and no spaces in its text, an answer is just stripped. */
  lemma AnswerWithoutSpaces(d: Doc, t: string)
    requires Proper(d) && PlainText(d) == t && Trimmed(Render(d)) && Trimmed(t) && ' ' !in t
    ensures AnswerOf(Render(d)) == t
  {
    var s := Render(d);
    TrimOfTrimmed(s);
    assert s[0..] == s;
    WalkDoc(s, 0, d);
    CollapseNone(t);
    TrimOfTrimmed(t);
  }

  lemma JoinedIsTag(t: string)
    requires t == "[cite:c:d]"
    ensures Tags(t, 0) != []
  {
    assert t == TagText("c", "d") && t[0..|t|] == t;
    TagFound(t, 0, "c", "d");
  }
}
