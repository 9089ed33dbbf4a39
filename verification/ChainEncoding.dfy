/** The byte strings that the audit chain hashes (internal/audit/chain/chain.go): length-prefixed
    fields followed by the previous row's hash. The theorems say that no content can shift a
    field boundary, and that a row can never be taken for a high-water-mark.

    A length prefix counts bytes, so here, unlike in the other modules, a character stands for one
    byte of a column's text. */
module ChainEncoding {

  const DIGITS: string := "0123456789"

  /** Decimal rendering of %d and strconv.FormatInt. */
  function Dec(n: nat): (d: string)
    ensures d != ""
  {
    if n < 10 then [DIGITS[n]] else Dec(n / 10) + [DIGITS[n % 10]]
  }

  function FormatInt(n: int): string {
    if n < 0 then "-" + Dec(-n) else Dec(n)
  }

  /** writeField */
  function Field(s: string): string {
    Dec(|s|) + ":" + s
  }

  function Fields(fs: seq<string>): string {
    if fs == [] then "" else Field(fs[0]) + Fields(fs[1..])
  }

  datatype Row = Row(
    id: string, actor: string, eventType: string, targetType: string, targetID: string,
    action: string, payload: string, tenant: string, seqNo: int,
    prevHash: string, rowHash: string, timestamp: string, algo: string)

  /** What RowHash feeds to SHA-256. */
  function LegacyMsg(r: Row): string {
    Fields([r.id, r.actor, r.eventType, r.targetType, r.targetID, r.action, r.payload, r.tenant,
            FormatInt(r.seqNo)]) + r.prevHash
  }

  /** What RowHashV2 feeds to HMAC-SHA256: the timestamp is covered as well. */
  function KeyedMsg(r: Row): string {
    Fields([r.id, r.actor, r.eventType, r.targetType, r.targetID, r.action, r.payload, r.tenant,
            r.timestamp, FormatInt(r.seqNo)]) + r.prevHash
  }

  datatype Head = Head(tenant: string, headSeq: int, headRowHash: string, mac: string)

  /** What HeadMAC feeds to HMAC-SHA256. */
  function HeadMsg(h: Head): string {
    Fields(["audit_chain_head", h.tenant, FormatInt(h.headSeq), h.headRowHash])
  }

  /** The columns an unkeyed hash covers. */
  predicate SameContent(a: Row, b: Row) {
    a.id == b.id && a.actor == b.actor && a.eventType == b.eventType && a.targetType == b.targetType &&
    a.targetID == b.targetID && a.action == b.action && a.payload == b.payload && a.tenant == b.tenant &&
    a.seqNo == b.seqNo && a.prevHash == b.prevHash
  }

  // ---------------------------------------------------------------- decimals

  lemma {:induction false} DecIsDigits(n: nat)
    ensures forall c :: c in Dec(n) ==> c in DIGITS
  {
    if n >= 10 { DecIsDigits(n / 10); }
  }

  lemma {:induction false} DecInjective(m: nat, n: nat)
    requires Dec(m) == Dec(n)
    ensures m == n
  {
    var dm, dn := Dec(m), Dec(n);
    assert dm[|dm| - 1] == DIGITS[m % 10] && dn[|dn| - 1] == DIGITS[n % 10];
    if m >= 10 && n >= 10 {
      assert Dec(m / 10) == dm[..|dm| - 1] && Dec(n / 10) == dn[..|dn| - 1];
      DecInjective(m / 10, n / 10);
    }
  }

  lemma NoMinus(n: nat)
    ensures Dec(n)[0] != '-'
  {
    DecIsDigits(n);
    assert Dec(n)[0] in Dec(n);
  }

  lemma FormatIntInjective(m: int, n: int)
    requires FormatInt(m) == FormatInt(n)
    ensures m == n
  {
    NoMinus(if m < 0 then -m else m);
    NoMinus(if n < 0 then -n else n);
    if m < 0 && n < 0 {
      assert FormatInt(m)[1..] == Dec(-m) && FormatInt(n)[1..] == Dec(-n);
      DecInjective(-m, -n);
    } else if m >= 0 && n >= 0 {
      DecInjective(m, n);
    }
  }

  function DigitOf(c: char): int { c as int - '0' as int }

  /** What a string of digits is worth. */
  function Value(d: string): int {
    if d == "" then 0 else 10 * Value(d[..|d| - 1]) + DigitOf(d[|d| - 1])
  }

  /** The rendering is decimal: it is worth the number, and has no leading zero. */
  lemma {:induction false} DecIsDecimal(n: nat)
    ensures Value(Dec(n)) == n && (n > 0 ==> Dec(n)[0] != '0')
  {
    var d := Dec(n);
    assert DigitOf(DIGITS[n % 10]) == n % 10 by { DigitsInOrder(n % 10); }
    if n < 10 {
      assert d[..0] == "";
    } else {
      DecIsDecimal(n / 10);
      assert d[..|d| - 1] == Dec(n / 10) && d[0] == Dec(n / 10)[0];
    }
  }

  lemma DigitsInOrder(k: nat)
    requires k < 10
    ensures DigitOf(DIGITS[k]) == k
  {
  }

  // ---------------------------------------------------------------- the layout

  /** Every field is its length, a colon and its text, in this order. */
  lemma MessagesLaidOut(r: Row, h: Head)
    ensures var n := FormatInt(r.seqNo);
            && LegacyMsg(r) == Fields([r.id, r.actor, r.eventType, r.targetType]) +
                               Fields([r.targetID, r.action, r.payload, r.tenant]) + Field(n) + r.prevHash
            && KeyedMsg(r) == Fields([r.id, r.actor, r.eventType, r.targetType]) +
                              Fields([r.targetID, r.action, r.payload, r.tenant]) + Fields([r.timestamp, n]) +
                                r.prevHash
  {
    var n := FormatInt(r.seqNo);
    var first, second := [r.id, r.actor, r.eventType, r.targetType], [r.targetID, r.action, r.payload, r.tenant];
    FieldsSplit(first, second);
    FieldsSplit(first + second, [n]);
    FieldsSplit(first + second, [r.timestamp, n]);
    assert Fields([n]) == Field(n) + "" == Field(n) by { assert [n][1..] == []; }
    assert first + second + [n] ==
           [r.id, r.actor, r.eventType, r.targetType, r.targetID, r.action, r.payload, r.tenant, n];
    assert first + second + [r.timestamp, n] ==
           [r.id, r.actor, r.eventType, r.targetType, r.targetID, r.action, r.payload, r.tenant, r.timestamp, n];
  }

  // ---------------------------------------------------------------- unique reading

  lemma CutAtColon(t: string, d: string, a: string, x: string)
    requires t == d + ":" + a + x
    ensures |d| < |t| && t[..|d|] == d && t[|d|] == ':' && t[|d| + 1..] == a + x
  {
  }

  /** What a field looks like in front of anything. */
  lemma FieldParts(t: string, a: string, d: string, x: string)
    requires t == Field(a) + x && d == Dec(|a|)
    ensures |d| < |t| && t[..|d|] == d && t[|d|] == ':' && t[|d| + 1..] == a + x
    ensures forall i :: 0 <= i < |d| ==> t[i] != ':'
  {
    DecIsDigits(|a|);
    CutAtColon(t, d, a, x);
    forall i | 0 <= i < |d| ensures t[i] != ':' { assert t[i] == t[..|d|][i] && d[i] in d; }
  }

  lemma SameCut(a: string, x: string, b: string, y: string)
    requires |a| == |b| && a + x == b + y
    ensures a == b && x == y
  {
    assert a == (a + x)[..|a|] && b == (b + y)[..|b|];
    assert x == (a + x)[|a|..] && y == (b + y)[|b|..];
  }

  /** A length prefix ends at the first ':', so a field can be read back whatever follows it. */
  lemma FieldReadable(a: string, x: string, b: string, y: string)
    requires Field(a) + x == Field(b) + y
    ensures a == b && x == y
  {
    var t := Field(a) + x;
    var d, e := Dec(|a|), Dec(|b|);
    FieldParts(t, a, d, x);
    FieldParts(t, b, e, y);
    assert |d| == |e|;
    DecInjective(|a|, |b|);
    SameCut(a, x, b, y);
  }

  lemma {:induction false} FieldsReadable(fs: seq<string>, x: string, gs: seq<string>, y: string)
    requires |fs| == |gs| && Fields(fs) + x == Fields(gs) + y
    ensures fs == gs && x == y
  {
    if fs == [] {
      assert Fields(fs) + x == x && Fields(gs) + y == y;
    } else {
      assert Fields(fs) + x == Field(fs[0]) + (Fields(fs[1..]) + x);
      assert Fields(gs) + y == Field(gs[0]) + (Fields(gs[1..]) + y);
      FieldReadable(fs[0], Fields(fs[1..]) + x, gs[0], Fields(gs[1..]) + y);
      FieldsReadable(fs[1..], x, gs[1..], y);
      assert fs == [fs[0]] + fs[1..] && gs == [gs[0]] + gs[1..];
    }
  }

  lemma {:induction false} FieldsSplit(fs: seq<string>, gs: seq<string>)
    ensures Fields(fs + gs) == Fields(fs) + Fields(gs)
  {
    if fs == [] {
      assert fs + gs == gs;
    } else {
      assert (fs + gs)[1..] == fs[1..] + gs;
      FieldsSplit(fs[1..], gs);
    }
  }

  /** The unkeyed message determines every column it covers. */
  lemma LegacyMsgInjective(a: Row, b: Row)
    ensures LegacyMsg(a) == LegacyMsg(b) <==> SameContent(a, b)
  {
    if LegacyMsg(a) == LegacyMsg(b) {
      var fs := [a.id, a.actor, a.eventType, a.targetType, a.targetID, a.action, a.payload, a.tenant,
                 FormatInt(a.seqNo)];
      var gs := [b.id, b.actor, b.eventType, b.targetType, b.targetID, b.action, b.payload, b.tenant,
                 FormatInt(b.seqNo)];
      FieldsReadable(fs, a.prevHash, gs, b.prevHash);
      SameFields(fs, gs);
      FormatIntInjective(a.seqNo, b.seqNo);
    }
  }

  /** The keyed message determines the same columns and the timestamp. */
  lemma KeyedMsgInjective(a: Row, b: Row)
    ensures KeyedMsg(a) == KeyedMsg(b) <==> SameContent(a, b) && a.timestamp == b.timestamp
  {
    if KeyedMsg(a) == KeyedMsg(b) {
      var fs := [a.id, a.actor, a.eventType, a.targetType, a.targetID, a.action, a.payload, a.tenant, a.timestamp,
                 FormatInt(a.seqNo)];
      var gs := [b.id, b.actor, b.eventType, b.targetType, b.targetID, b.action, b.payload, b.tenant, b.timestamp,
                 FormatInt(b.seqNo)];
      FieldsReadable(fs, a.prevHash, gs, b.prevHash);
      SameFields(fs, gs);
      FormatIntInjective(a.seqNo, b.seqNo);
    }
  }

  lemma SameFields(fs: seq<string>, gs: seq<string>)
    requires fs == gs
    ensures forall i :: 0 <= i < |fs| ==> fs[i] == gs[i]
  {
  }

  lemma HeadMsgInjective(g: Head, h: Head)
    ensures HeadMsg(g) == HeadMsg(h) <==>
            g.tenant == h.tenant && g.headSeq == h.headSeq && g.headRowHash == h.headRowHash
  {
    if HeadMsg(g) == HeadMsg(h) {
      var fs := ["audit_chain_head", g.tenant, FormatInt(g.headSeq), g.headRowHash];
      var gs := ["audit_chain_head", h.tenant, FormatInt(h.headSeq), h.headRowHash];
      assert Fields(fs) + "" == Fields(gs) + "";
      FieldsReadable(fs, "", gs, "");
      SameFields(fs, gs);
      FormatIntInjective(g.headSeq, h.headSeq);
    }
  }

  /** Domain separation: no row, not even one whose id is the domain tag itself, shares its keyed
      message with a high-water-mark. A head is four fields; a row goes on after four. */
  lemma RowIsNeverHead(r: Row, h: Head)
    ensures KeyedMsg(r) != HeadMsg(h)
  {
    var first := [r.id, r.actor, r.eventType, r.targetType];
    var second := [r.targetID, r.action, r.payload, r.tenant, r.timestamp, FormatInt(r.seqNo)];
    var gs := ["audit_chain_head", h.tenant, FormatInt(h.headSeq), h.headRowHash];
    assert Fields(second) != "";
    if KeyedMsg(r) == HeadMsg(h) {
      assert first + second == [r.id, r.actor, r.eventType, r.targetType, r.targetID, r.action, r.payload, r.tenant,
                                r.timestamp, FormatInt(r.seqNo)];
      FieldsSplit(first, second);
      assert Fields(first) + (Fields(second) + r.prevHash) == Fields(gs) + "";
      FieldsReadable(first, Fields(second) + r.prevHash, gs, "");
    }
  }
}
