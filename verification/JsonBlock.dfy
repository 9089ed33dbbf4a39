/** `extractJSONBlock` (internal/ai/ai.go): strip a markdown fence, drop the preamble, and cut
    out one brace-balanced object while ignoring braces inside string literals.

    The scanner is specified by the part of the input it returns (`Span`); the theorems relate
    that part to the grammar of RFC 8259. */
module JsonBlock {
  import opened GoStrings

  // ---------------------------------------------------------------- the scanner

  /** depth, inString and escape of the scanning loop. */
  datatype Scan = Scan(depth: int, inString: bool, escape: bool)

  /** A scan is still going, or has closed the object after `used` characters. */
  datatype Progress = Live(st: Scan) | Closed(used: nat)

  const START: Scan := Scan(0, false, false)

  function Outside(depth: int): Scan { Scan(depth, false, false) }

  predicate Closes(st: Scan, c: char) {
    !st.escape && !st.inString && c == '}' && st.depth == 1
  }

  function Advance(st: Scan, c: char): Scan {
    if st.escape then st.(escape := false)
    else if c == '\\' && st.inString then st.(escape := true)
    else if c == '"' then st.(inString := !st.inString)
    else if st.inString then st
    else if c == '{' then st.(depth := st.depth + 1)
    else if c == '}' then st.(depth := st.depth - 1)
    else st
  }

  function Run(t: string, st: Scan): (p: Progress)
    ensures p.Closed? ==> 0 < p.used <= |t|
  {
    if t == [] then Live(st)
    else if Closes(st, t[0]) then Closed(1)
    else match Run(t[1..], Advance(st, t[0]))
      case Live(e) => Live(e)
      case Closed(n) => Closed(n + 1)
  }

  /** Where s[lo..hi] starts once the fence line is dropped; lo when there is no newline. */
  function AfterFenceLine(s: string, lo: nat, hi: nat): (c: nat)
    requires lo <= hi <= |s|
    ensures lo <= c <= hi
  {
    var k := IndexOf(s, '\n', lo, hi);
    if k >= 0 then k + 1 else lo
  }

  predicate FencedAt(s: string, lo: nat, hi: nat)
    requires lo <= hi <= |s|
  {
    lo + 3 <= hi && s[lo] == s[lo + 1] == s[lo + 2] == '`'
  }

  /** Where s[lo..hi] ends without a closing fence. */
  function BeforeClosingFence(s: string, lo: nat, hi: nat): (e: nat)
    requires lo <= hi <= |s|
    ensures lo <= e <= hi
  {
    if lo + 3 <= hi && FencedAt(s, hi - 3, hi) then hi - 3 else hi
  }

  /** The bounds of the text left once white space and a leading fence are stripped. */
  function Unfenced(s: string): (b: (nat, nat))
    ensures b.0 <= b.1 <= |s|
  {
    var (lo, hi) := TrimBounds(s, 0, |s|);
    if FencedAt(s, lo, hi) then
      var c := AfterFenceLine(s, lo, hi);
      TrimBounds(s, c, BeforeClosingFence(s, c, hi))
    else (lo, hi)
  }

  /** The bounds of the block cut out of s[lo..hi]: from the first '{' to its matching '}', or
      to the end when there is none; all of it when it has no '{'. */
  function ObjectIn(s: string, lo: nat, hi: nat): (b: (nat, nat))
    requires lo <= hi <= |s|
    ensures lo <= b.0 <= b.1 <= hi
  {
    var k := IndexOf(s, '{', lo, hi);
    if k < 0 then (lo, hi) else (k, BlockEnd(s, k, hi, START))
  }

  /** Where the scan of s[i..hi] from state st stops. */
  function BlockEnd(s: string, i: nat, hi: nat, st: Scan): (e: nat)
    requires i <= hi <= |s|
    ensures i <= e <= hi
    decreases hi - i
  {
    if i == hi then hi
    else if Closes(st, s[i]) then i + 1
    else BlockEnd(s, i + 1, hi, Advance(st, s[i]))
  }

  /** The slice of `s` that is returned, as a pair of offsets into `s`. */
  function Span(s: string): (b: (nat, nat))
    ensures b.0 <= b.1 <= |s|
  {
    var (lo, hi) := Unfenced(s);
    ObjectIn(s, lo, hi)
  }

  /** extractJSONBlock. A Go substring is a view of the string it was cut from, so the shrinking
      variable of the source is the view s[lo..hi] here. */
  method ExtractJSONBlock(s: string) returns (r: string)
    ensures r == s[Span(s).0..Span(s).1]
  {
    var lo, hi := StripFence(s);
    r := CutObject(s, lo, hi);
  }

  /** The trimming and fence-stripping at its start. */
  method StripFence(s: string) returns (lo: nat, hi: nat)
    ensures (lo, hi) == Unfenced(s) && lo <= hi <= |s|
  {
    var b := TrimBounds(s, 0, |s|);
    lo, hi := b.0, b.1;
    if FencedAt(s, lo, hi) {
      var idx := IndexOf(s, '\n', lo, hi);
      if idx >= 0 { lo := idx + 1; }
      if lo + 3 <= hi && FencedAt(s, hi - 3, hi) { hi := hi - 3; }
      b := TrimBounds(s, lo, hi);
      lo, hi := b.0, b.1;
    }
  }

  /** The scanning loop. */
  method CutObject(s: string, lo: nat, hi: nat) returns (r: string)
    requires lo <= hi <= |s|
    ensures r == s[ObjectIn(s, lo, hi).0..ObjectIn(s, lo, hi).1]
  {
    var start := IndexOf(s, '{', lo, hi);
    if start < 0 { return s[lo..hi]; }
    var depth, inString, escape := 0, false, false;
    var i := start;
    while i < hi
      invariant start <= i <= hi
      invariant BlockEnd(s, start, hi, START) == BlockEnd(s, i, hi, Scan(depth, inString, escape))
    {
      var c := s[i];
      i := i + 1;
      if escape {
        escape := false;
      } else if c == '\\' && inString {
        escape := true;
      } else if c == '"' {
        inString := !inString;
      } else if !inString && c == '{' {
        depth := depth + 1;
      } else if !inString && c == '}' {
        depth := depth - 1;
        if depth == 0 { return s[start..i]; }
      }
    }
    return s[start..hi];
  }

  /** The scan of s[i..hi], as a run over that text. */
  lemma {:induction false} BlockEndIsRun(s: string, i: nat, hi: nat, st: Scan)
    requires i <= hi <= |s|
    ensures BlockEnd(s, i, hi, st) == match Run(s[i..hi], st)
                                      case Closed(n) => i + n
                                      case Live(_) => hi
    decreases hi - i
  {
    if i < hi && !Closes(st, s[i]) {
      BlockEndIsRun(s, i + 1, hi, Advance(st, s[i]));
      assert s[i..hi][1..] == s[i + 1..hi];
    }
  }

  lemma {:induction false} RunConcat(a: string, b: string, st: Scan)
    ensures Run(a + b, st) == match Run(a, st)
                              case Closed(n) => Closed(n)
                              case Live(e) =>
                                match Run(b, e)
                                case Live(f) => Live(f)
                                case Closed(n) => Closed(|a| + n)
  {
    if a == [] {
      assert a + b == b;
    } else {
      assert (a + b)[0] == a[0] && (a + b)[1..] == a[1..] + b;
      if !Closes(st, a[0]) {
        RunConcat(a[1..], b, Advance(st, a[0]));
      }
    }
  }

  // ---------------------------------------------------------------- RFC 8259 texts

  /** One character of a string literal (section 7 of RFC 8259). */
  datatype StrChar = Plain(c: char) | Escape(c: char) | Unicode(hex: string) {
    predicate Valid() {
      match this
      case Plain(c) => c as int >= 0x20 && c != '"' && c != '\\'
      case Escape(c) => c in "\"\\/bfnrt"
      case Unicode(hex) => |hex| == 4 && forall h :: h in hex ==> HexDigit(h)
    }
    function Print(): string {
      match this
      case Plain(c) => [c]
      case Escape(c) => ['\\', c]
      case Unicode(hex) => "\\u" + hex
    }
  }

  predicate HexDigit(c: char) { '0' <= c <= '9' || 'a' <= c <= 'f' || 'A' <= c <= 'F' }

  /** Literal names and numbers; every number of section 6 of RFC 8259 is made of these. */
  predicate ScalarText(t: string) {
    t in ["true", "false", "null"] ||
    (t != "" && forall c :: c in t ==> '0' <= c <= '9' || c in "+-.eE")
  }

  predicate Blank(w: string) { forall c :: c in w ==> c in " \t\n\r" }

  /** A JSON text with the white space its printer chose. */
  datatype Json =
    | Scalar(text: string)
    | Str(chars: seq<StrChar>)
    | Arr(elems: Elems)
    | Obj(members: Members)

  datatype Elems = NoElems(ws: string) | OneElem(w1: string, v: Json, w2: string, rest: Elems)

  datatype Members =
    | NoMembers(ws: string)
    | OneMember(w1: string, key: seq<StrChar>, w2: string, w3: string, v: Json, w4: string, rest: Members)

  predicate ValidChars(cs: seq<StrChar>) { forall c :: c in cs ==> c.Valid() }

  predicate Valid(j: Json) {
    match j
    case Scalar(t) => ScalarText(t)
    case Str(cs) => ValidChars(cs)
    case Arr(es) => ValidElems(es)
    case Obj(ms) => ValidMembers(ms)
  }

  predicate ValidElems(es: Elems) {
    match es
    case NoElems(ws) => Blank(ws)
    case OneElem(w1, v, w2, rest) => Blank(w1) && Valid(v) && Blank(w2) && ValidElems(rest)
  }

  predicate ValidMembers(ms: Members) {
    match ms
    case NoMembers(ws) => Blank(ws)
    case OneMember(w1, k, w2, w3, v, w4, rest) =>
      Blank(w1) && ValidChars(k) && Blank(w2) && Blank(w3) && Valid(v) && Blank(w4) && ValidMembers(rest)
  }

  function PrintChars(cs: seq<StrChar>): string {
    if cs == [] then "" else cs[0].Print() + PrintChars(cs[1..])
  }

  function Quoted(cs: seq<StrChar>): string { "\"" + PrintChars(cs) + "\"" }

  function Print(j: Json): string {
    match j
    case Scalar(t) => t
    case Str(cs) => Quoted(cs)
    case Arr(es) => "[" + PrintElems(es) + "]"
    case Obj(ms) => "{" + PrintMembers(ms) + "}"
  }

  /** Elements separated by commas; the white space of an exhausted list is kept as well. */
  function PrintElems(es: Elems): string {
    match es
    case NoElems(ws) => ws
    case OneElem(w1, v, w2, rest) =>
      w1 + (Print(v) + (w2 + ((if rest.NoElems? then "" else ",") + PrintElems(rest))))
  }

  function PrintMembers(ms: Members): string {
    match ms
    case NoMembers(ws) => ws
    case OneMember(w1, k, w2, w3, v, w4, rest) =>
      var more := (if rest.NoMembers? then "" else ",") + PrintMembers(rest);
      w1 + (Quoted(k) + (w2 + (":" + (w3 + (Print(v) + (w4 + more))))))
  }

  // ---------------------------------------------------------------- the scanner on those texts

  /** Scanning `t` at brace depth d >= 1 outside strings ends in the state it began in. */
  ghost predicate Neutral(t: string) {
    forall d: int :: d >= 1 ==> Run(t, Outside(d)) == Live(Outside(d))
  }

  lemma NeutralConcat(a: string, b: string)
    requires Neutral(a) && Neutral(b)
    ensures Neutral(a + b)
  {
    forall d: int | d >= 1 ensures Run(a + b, Outside(d)) == Live(Outside(d)) {
      RunConcat(a, b, Outside(d));
    }
  }

  lemma {:induction false} NeutralPlain(t: string)
    requires forall c :: c in t ==> c !in "\"{}"
    ensures Neutral(t)
  {
    if t != [] {
      NeutralPlain(t[1..]);
      assert t[0] in t;
      forall d: int | d >= 1 ensures Run(t, Outside(d)) == Live(Outside(d)) {
        assert Run(t[1..], Outside(d)) == Live(Outside(d));
      }
    }
  }

  /** Inside a string literal every valid character leaves the scanner inside it. */
  lemma StrCharStays(c: StrChar, d: int)
    requires c.Valid()
    ensures Run(c.Print(), Scan(d, true, false)) == Live(Scan(d, true, false))
  {
    var inside := Scan(d, true, false);
    match c
    case Plain(_) =>
    case Escape(e) =>
      assert ['\\', e][1..] == [e] && [e][1..] == [];
      assert Run([e], Scan(d, true, true)) == Live(inside);
    case Unicode(hex) =>
      assert Run("\\u", inside) == Live(inside) by {
        assert "\\u"[1..] == "u" && "u"[1..] == [];
        assert Run("u", Scan(d, true, true)) == Live(inside);
      }
      InertInString(hex, d);
      RunConcat("\\u", hex, inside);
  }

  lemma {:induction false} InertInString(t: string, d: int)
    requires forall c :: c in t ==> c != '"' && c != '\\'
    ensures Run(t, Scan(d, true, false)) == Live(Scan(d, true, false))
  {
    if t != [] {
      assert t[0] in t && forall c :: c in t[1..] ==> c in t;
      InertInString(t[1..], d);
    }
  }

  lemma {:induction false} CharsStay(cs: seq<StrChar>, d: int)
    requires ValidChars(cs)
    ensures Run(PrintChars(cs), Scan(d, true, false)) == Live(Scan(d, true, false))
  {
    if cs != [] {
      StrCharStays(cs[0], d);
      CharsStay(cs[1..], d);
      RunConcat(cs[0].Print(), PrintChars(cs[1..]), Scan(d, true, false));
    }
  }

  lemma NeutralQuoted(cs: seq<StrChar>)
    requires ValidChars(cs)
    ensures Neutral(Quoted(cs))
  {
    forall d: int | d >= 1 ensures Run(Quoted(cs), Outside(d)) == Live(Outside(d)) {
      CharsStay(cs, d);
      var inside := Scan(d, true, false);
      assert "\""[1..] == [];
      assert Run("\"", Outside(d)) == Live(inside);
      assert Run("\"", inside) == Live(Outside(d));
      RunConcat("\"", PrintChars(cs), Outside(d));
      RunConcat("\"" + PrintChars(cs), "\"", Outside(d));
    }
  }

  lemma NeutralBlank(w: string)
    requires Blank(w)
    ensures Neutral(w)
  {
    NeutralPlain(w);
  }

  /** The invariant of the scan: every JSON value, however nested, is neutral. */
  lemma {:induction false} NeutralValue(j: Json)
    requires Valid(j)
    ensures Neutral(Print(j))
    decreases j
  {
    match j
    case Scalar(t) => NeutralPlain(t);
    case Str(cs) => NeutralQuoted(cs);
    case Arr(es) =>
      NeutralElems(es);
      NeutralPlain("[");
      NeutralPlain("]");
      NeutralConcat("[", PrintElems(es));
      NeutralConcat("[" + PrintElems(es), "]");
    case Obj(ms) =>
      NeutralMembers(ms);
      forall d: int | d >= 1 ensures Run(Print(j), Outside(d)) == Live(Outside(d)) {
        ObjectRun(ms, "", d);
        assert Print(j) + "" == Print(j);
      }
  }

  lemma {:induction false} NeutralElems(es: Elems)
    requires ValidElems(es)
    ensures Neutral(PrintElems(es))
    decreases es
  {
    match es
    case NoElems(ws) => NeutralBlank(ws);
    case OneElem(w1, v, w2, rest) =>
      NeutralValue(v);
      NeutralElems(rest);
      var sep := if rest.NoElems? then "" else ",";
      NeutralPlain(sep);
      NeutralBlank(w1);
      NeutralBlank(w2);
      NeutralConcat(sep, PrintElems(rest));
      NeutralConcat(w2, sep + PrintElems(rest));
      NeutralConcat(Print(v), w2 + (sep + PrintElems(rest)));
      NeutralConcat(w1, Print(v) + (w2 + (sep + PrintElems(rest))));
  }

  lemma {:induction false} NeutralMembers(ms: Members)
    requires ValidMembers(ms)
    ensures Neutral(PrintMembers(ms))
    decreases ms
  {
    match ms
    case NoMembers(ws) => NeutralBlank(ws);
    case OneMember(w1, k, w2, w3, v, w4, rest) =>
      NeutralValue(v);
      NeutralMembers(rest);
      NeutralQuoted(k);
      var sep := if rest.NoMembers? then "" else ",";
      NeutralPlain(sep);
      NeutralPlain(":");
      NeutralBlank(w1);
      NeutralBlank(w2);
      NeutralBlank(w3);
      NeutralBlank(w4);
      NeutralConcat(sep, PrintMembers(rest));
      var t4 := w4 + (sep + PrintMembers(rest));
      NeutralConcat(w4, sep + PrintMembers(rest));
      NeutralConcat(Print(v), t4);
      NeutralConcat(w3, Print(v) + t4);
      NeutralConcat(":", w3 + (Print(v) + t4));
      var t2 := ":" + (w3 + (Print(v) + t4));
      NeutralConcat(w2, t2);
      NeutralConcat(Quoted(k), w2 + t2);
      NeutralConcat(w1, Quoted(k) + (w2 + t2));
  }

  /** From depth d, the object `{ms}` ends at depth d again; from depth 0 it closes the scan
      exactly at its last brace, whatever follows. */
  lemma ObjectRun(ms: Members, suffix: string, d: nat)
    requires Neutral(PrintMembers(ms))
    ensures d >= 1 ==> Run("{" + PrintMembers(ms) + "}", Outside(d)) == Live(Outside(d))
    ensures d == 0 ==> Run("{" + PrintMembers(ms) + "}" + suffix, Outside(d)) == Closed(|PrintMembers(ms)| + 2)
  {
    var body := PrintMembers(ms);
    assert "{"[1..] == [] && "}"[1..] == [];
    assert Run("{", Outside(d)) == Live(Outside(d + 1));
    assert Run("}", Outside(d + 1)) == if d == 0 then Closed(1) else Live(Outside(d));
    RunConcat("{", body, Outside(d));
    RunConcat("{" + body, "}", Outside(d));
    RunConcat("{" + body + "}", suffix, Outside(d));
  }

  // ---------------------------------------------------------------- round trip

  /** The guard of the fence branch, seen from outside: the trimmed input is not fenced, or its
      first newline comes before the object, or it has no newline at all. */
  predicate FenceLineEndsBefore(s: string, at: nat) {
    var (lo, hi) := TrimBounds(s, 0, |s|);
    FencedAt(s, lo, hi) ==> IndexOf(s, '\n', lo, hi) < at
  }

  /** A block that a scan from its first brace closes exactly at its end, whatever follows. */
  ghost predicate SelfClosing(p: string) {
    p != "" && p[0] == '{' && p[|p| - 1] == '}' && forall tail :: Run(p + tail, START) == Closed(|p|)
  }

  lemma ObjectSelfCloses(ms: Members)
    requires ValidMembers(ms)
    ensures SelfClosing(Print(Obj(ms)))
  {
    NeutralMembers(ms);
    forall tail ensures Run(Print(Obj(ms)) + tail, START) == Closed(|Print(Obj(ms))|) {
      ObjectRun(ms, tail, 0);
    }
  }

  /** Scanning any part of pre + p + suf that holds the block p finds p. */
  lemma ObjectFound(pre: string, p: string, suf: string, lo: nat, hi: nat)
    requires SelfClosing(p) && '{' !in pre
    requires lo <= |pre| && |pre| + |p| <= hi <= |pre + p + suf|
    ensures ObjectIn(pre + p + suf, lo, hi) == (|pre|, |pre| + |p|)
  {
    var s := pre + p + suf;
    assert s[|pre|] == '{';
    IndexOfAt(s, '{', lo, hi, |pre|);
    assert s[|pre|..hi] == p + suf[..hi - |pre| - |p|];
    BlockEndIsRun(s, |pre|, hi, START);
  }

  /** A fenced text keeps a block a..b exactly when its first newline does not come after a. */
  lemma FenceKeeps(s: string, lo: nat, hi: nat, a: nat, b: nat)
    requires lo <= a < b <= hi <= |s| && s[a] == '{' && s[b - 1] == '}'
    ensures var c := AfterFenceLine(s, lo, hi);
            var (x, y) := TrimBounds(s, c, BeforeClosingFence(s, c, hi));
            if IndexOf(s, '\n', lo, hi) < a then x <= a && b <= y else a < x
  {
    IndexOfIs(s, '\n', lo, hi);
    var c := AfterFenceLine(s, lo, hi);
    if c <= a {
      TrimKeeps(s, c, BeforeClosingFence(s, c, hi), a, b);
    }
  }

  /** For every block a scan closes, every preamble without '{' and every suffix, the part
      returned is exactly the block if and only if a fence line ends before it. */
  lemma BlockExtracted(pre: string, p: string, suf: string)
    requires SelfClosing(p) && '{' !in pre
    ensures var s := pre + p + suf;
            Span(s) == (|pre|, |pre| + |p|) <==> FenceLineEndsBefore(s, |pre|)
  {
    var s := pre + p + suf;
    var a, b := |pre|, |pre| + |p|;
    assert s[a] == '{' && s[b - 1] == '}';
    TrimKeeps(s, 0, |s|, a, b);
    var (lo, hi) := TrimBounds(s, 0, |s|);
    FenceKeeps(s, lo, hi, a, b);
    var (x, y) := Unfenced(s);
    if FenceLineEndsBefore(s, a) {
      ObjectFound(pre, p, suf, x, y);
    }
  }

  /** The central law: for every object text of RFC 8259. */
  lemma ExtractsObject(pre: string, ms: Members, suf: string)
    requires ValidMembers(ms) && '{' !in pre
    ensures var p := Print(Obj(ms));
            var s := pre + p + suf;
            Span(s) == (|pre|, |pre| + |p|) <==> FenceLineEndsBefore(s, |pre|)
  {
    ObjectSelfCloses(ms);
    BlockExtracted(pre, Print(Obj(ms)), suf);
  }

  /** The same law on the returned text. */
  method ExtractPrinted(pre: string, ms: Members, suf: string) returns (r: string)
    requires ValidMembers(ms) && '{' !in pre
    requires FenceLineEndsBefore(pre + Print(Obj(ms)) + suf, |pre|)
    ensures r == Print(Obj(ms))
  {
    var p := Print(Obj(ms));
    var s := pre + p + suf;
    ExtractsObject(pre, ms, suf);
    r := ExtractJSONBlock(s);
    assert s[|pre|..|pre| + |p|] == p;
  }

  /** A fenced input whose first newline comes after the object loses the object. */
  lemma FenceWithoutLineLosesObject()
    ensures var s := "```{}\nx"; s[Span(s).0..Span(s).1] == "x"
  {
    var s := "```{}\nx";
    TrimBoundsAre(s, 0, 7, 0, 7);
    IndexOfAt(s, '\n', 0, 7, 5);
    TrimBoundsAre(s, 6, 7, 6, 7);
    IndexOfIs(s, '{', 6, 7);
  }

  lemma FenceOpens(s: string, lang: string, inside: string)
    requires s == "```" + lang + "\n" + inside + "```" && '\n' !in lang
    ensures FencedAt(s, 0, |s|) && FencedAt(s, |s| - 3, |s|) && IndexOf(s, '\n', 0, |s|) == |lang| + 3
    ensures s[|lang| + 4..|s| - 3] == inside
  {
    forall i | 0 <= i < |lang| + 3 ensures s[i] != '\n' { assert i >= 3 ==> s[i] == lang[i - 3]; }
    IndexOfAt(s, '\n', 0, |s|, |lang| + 3);
  }

  /** Trimming a part of a text. */
  lemma TrimPart(s: string, lo: nat, hi: nat, lead: string, body: string, trail: string)
    requires lo <= hi <= |s| && s[lo..hi] == lead + body + trail
    requires AllSpace(lead) && AllSpace(trail) && body != "" && Trimmed(body)
    ensures TrimBounds(s, lo, hi) == (lo + |lead|, lo + |lead| + |body|)
    ensures s[lo + |lead|..lo + |lead| + |body|] == body
  {
    var t, a := s[lo..hi], lo + |lead|;
    forall i | lo <= i < hi ensures s[i] == t[i - lo] { }
    assert t[|lead|..|lead| + |body|] == body;
    assert s[a] == body[0] && s[a + |body| - 1] == body[|body| - 1];
    forall i | lo <= i < a || a + |body| <= i < hi ensures IsSpace(s[i]) {
      assert s[i] == if i < a then lead[i - lo] else trail[i - a - |body|];
    }
    TrimBoundsAre(s, lo, hi, a, a + |body|);
  }

  /** A fence is stripped with its language line, its closing mark and the white space inside it. */
  lemma FenceStripped(s: string, lang: string, lead: string, body: string, trail: string)
    requires s == "```" + lang + "\n" + (lead + body + trail) + "```" && '\n' !in lang
    requires AllSpace(lead) && AllSpace(trail) && body != "" && Trimmed(body)
    ensures s[Unfenced(s).0..Unfenced(s).1] == body
  {
    FenceOpens(s, lang, lead + body + trail);
    TrimBoundsAre(s, 0, |s|, 0, |s|);
    TrimPart(s, |lang| + 4, |s| - 3, lead, body, trail);
  }

  /** When no object closes, all of the text comes back from the first '{' on, or from its start. */
  lemma UnclosedComesBack(s: string, pre: string, rest: string)
    requires s[Unfenced(s).0..Unfenced(s).1] == pre + rest && '{' !in pre
    requires rest == "" || (rest[0] == '{' && Run(rest, START).Live?)
    ensures s[Span(s).0..Span(s).1] == if rest == "" then pre else rest
  {
    var (lo, hi) := Unfenced(s);
    var t := s[lo..hi];
    forall i | lo <= i < lo + |pre| ensures s[i] != '{' { assert s[i] == t[i - lo] == pre[i - lo]; }
    if rest == "" {
      IndexOfIs(s, '{', lo, hi);
    } else {
      var k := lo + |pre|;
      assert s[k] == t[|pre|] == rest[0];
      IndexOfAt(s, '{', lo, hi, k);
      assert s[k..hi] == t[|pre|..] == rest;
      BlockEndIsRun(s, k, hi, START);
    }
  }

  /** Once an object start was found, extracting again changes nothing. */
  lemma ExtractIdempotent(s: string)
    requires IndexOf(s, '{', Unfenced(s).0, Unfenced(s).1) >= 0
    ensures var r := s[Span(s).0..Span(s).1]; Span(r) == (0, |r|)
  {
    var (lo, hi) := Unfenced(s);
    UnfencedIsTrimmed(s);
    IndexOfIs(s, '{', lo, hi);
    BlockScansAlone(s, IndexOf(s, '{', lo, hi), hi);
  }

  /** The block cut out of s[k..hi], scanned on its own, is all of itself. */
  lemma BlockScansAlone(s: string, k: nat, hi: nat)
    requires k < hi <= |s| && s[k] == '{' && !IsSpace(s[hi - 1])
    ensures var r := s[k..BlockEnd(s, k, hi, START)];
            r != "" && r[0] == '{' && !IsSpace(r[|r| - 1]) && BlockEnd(r, 0, |r|, START) == |r|
  {
    var e := BlockEnd(s, k, hi, START);
    var t, r := s[k..hi], s[k..e];
    BlockEndIsRun(s, k, hi, START);
    BlockEndIsRun(r, 0, |r|, START);
    assert r[0..|r|] == r;
    if Run(t, START).Closed? {
      ClosedAtBrace(t, START);
      assert t[..e - k] == r;
    }
  }

  lemma UnfencedIsTrimmed(s: string)
    ensures var (lo, hi) := Unfenced(s); lo < hi ==> !IsSpace(s[hi - 1])
  {
    var (lo, hi) := TrimBounds(s, 0, |s|);
    TrimBoundsTrimmed(s, 0, |s|);
    if FencedAt(s, lo, hi) {
      var c := AfterFenceLine(s, lo, hi);
      TrimBoundsTrimmed(s, c, BeforeClosingFence(s, c, hi));
    }
  }

  /** A scan closes on a '}', and the closed block scanned on its own closes at its end. */
  lemma {:induction false} ClosedAtBrace(t: string, st: Scan)
    requires Run(t, st).Closed?
    ensures var n := Run(t, st).used; t[n - 1] == '}' && Run(t[..n], st) == Closed(n)
  {
    if Closes(st, t[0]) {
      assert t[..1][0] == t[0];
    } else {
      ClosedAtBrace(t[1..], Advance(st, t[0]));
      var n := Run(t, st).used;
      assert t[..n][1..] == t[1..][..n - 1] && t[..n][0] == t[0];
    }
  }
}
