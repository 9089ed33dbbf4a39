/** Verification of the tamper-evident audit chain (internal/audit/chain/chain.go): `Verify`, the
    unkeyed walk, and `VerifySealed`, the keyed walk with its high-water-mark.

    SHA-256 and HMAC-SHA256 are arbitrary functions here. Where an argument needs collision
    resistance, the theorem does not assume it: it hands out the two colliding messages. */
module AuditChain {
  import opened GoStrings
  import opened ChainEncoding

  const HMAC_V2: string := "hmac-sha256-v2"

  predicate Keyed(r: Row) { r.algo == HMAC_V2 }

  /** Hex SHA-256, and hex HMAC-SHA256 under the audit key when one is configured. */
  datatype Crypto = Crypto(sha: string -> string, mac: Option<string -> string>)

  /** Why a walk stopped; the source renders these as the Detail text. */
  datatype Defect =
    | Sound | Downgrade | NoKey | Gap | Unlinked | HashMismatch | Backdated
    | HeadNoKey | HeadForged | Truncated | HeadMismatch

  datatype Result = Result(
    ok: bool, rowsVerified: nat, firstBreakSeq: int, detail: Defect,
    coversFromSeq: int, headSeq: int, headRowHash: string)

  // ---------------------------------------------------------------- what is wrong with row i

  /** The first row's predecessor may have been swept away, so only later rows must link. */
  function LinkDefect(rows: seq<Row>, i: nat, expected: string): Defect
    requires i < |rows|
  {
    if i > 0 && rows[i].seqNo != rows[i - 1].seqNo + 1 then Gap
    else if i > 0 && rows[i].prevHash != rows[i - 1].rowHash then Unlinked
    else if rows[i].rowHash != expected then HashMismatch
    else Sound
  }

  function LegacyDefect(sha: string -> string, rows: seq<Row>, i: nat): Defect
    requires i < |rows|
  {
    LinkDefect(rows, i, sha(LegacyMsg(rows[i])))
  }

  /** computeExpected: the hash under the scheme the row declares. */
  function Expected(c: Crypto, r: Row): string
    requires Keyed(r) ==> c.mac.Some?
  {
    if Keyed(r) then c.mac.value(KeyedMsg(r)) else c.sha(LegacyMsg(r))
  }

  predicate FollowsKeyed(rows: seq<Row>, i: nat)
    requires i < |rows|
  {
    i > 0 && Keyed(rows[i - 1])
  }

  function SealedDefect(c: Crypto, rows: seq<Row>, i: nat): Defect
    requires i < |rows|
  {
    var r := rows[i];
    if FollowsKeyed(rows, i) && !Keyed(r) then Downgrade
    else if Keyed(r) && c.mac.None? then NoKey
    else
      var d := LinkDefect(rows, i, Expected(c, r));
      if d != Sound then d
      else if Keyed(r) && FollowsKeyed(rows, i) && r.timestamp != "" && rows[i - 1].timestamp != "" &&
              LexLess(r.timestamp, rows[i - 1].timestamp) then Backdated
      else Sound
  }

  function TipSeq(rows: seq<Row>): int { if rows == [] then 0 else rows[|rows| - 1].seqNo }

  function TipHash(rows: seq<Row>): string { if rows == [] then "" else rows[|rows| - 1].rowHash }

  function CoversFrom(rows: seq<Row>): int { if rows == [] then 0 else rows[0].seqNo }

  function HeadDefect(c: Crypto, rows: seq<Row>, h: Head): Defect {
    if c.mac.None? then HeadNoKey
    else if c.mac.value(HeadMsg(h)) != h.mac then HeadForged
    else if TipSeq(rows) < h.headSeq then Truncated
    else if TipSeq(rows) == h.headSeq && TipHash(rows) != h.headRowHash then HeadMismatch
    else Sound
  }

  // ---------------------------------------------------------------- what a verdict must be

  ghost predicate LegacySound(sha: string -> string, rows: seq<Row>, n: nat)
    requires n <= |rows|
  {
    forall i :: 0 <= i < n ==> LegacyDefect(sha, rows, i) == Sound
  }

  ghost predicate SealedSound(c: Crypto, rows: seq<Row>, n: nat)
    requires n <= |rows|
  {
    forall i :: 0 <= i < n ==> SealedDefect(c, rows, i) == Sound
  }

  function Passed(rows: seq<Row>): Result {
    Result(true, |rows|, 0, Sound, CoversFrom(rows), TipSeq(rows), TipHash(rows))
  }

  /** `res` reports the first defective row of the unkeyed walk, or the tip of a sound one. */
  ghost predicate IsLegacyVerdict(sha: string -> string, rows: seq<Row>, res: Result) {
    if res.ok then LegacySound(sha, rows, |rows|) && res == Passed(rows)
    else
      && res.rowsVerified < |rows|
      && LegacySound(sha, rows, res.rowsVerified)
      && LegacyDefect(sha, rows, res.rowsVerified) != Sound
      && res == Result(false, res.rowsVerified, rows[res.rowsVerified].seqNo,
                       LegacyDefect(sha, rows, res.rowsVerified), CoversFrom(rows), 0, "")
  }

  /** Where the keyed walk says coverage begins when it stops at row n. A first row without a key is
      refused before its number is noted. */
  function StoppedFrom(rows: seq<Row>, n: nat, d: Defect): int {
    if n == 0 && d == NoKey then 0 else CoversFrom(rows)
  }

  /** The same for the keyed walk; the head is only looked at once every row is sound. */
  ghost predicate IsSealedVerdict(c: Crypto, rows: seq<Row>, head: Option<Head>, res: Result) {
    var n := res.rowsVerified;
    if res.ok then
      SealedSound(c, rows, |rows|) && res == Passed(rows) &&
      (head.Some? ==> HeadDefect(c, rows, head.value) == Sound)
    else if n < |rows| then
      && SealedSound(c, rows, n)
      && SealedDefect(c, rows, n) != Sound
      && res == Result(false, n, rows[n].seqNo, SealedDefect(c, rows, n),
                       StoppedFrom(rows, n, SealedDefect(c, rows, n)), 0, "")
    else
      && SealedSound(c, rows, |rows|)
      && head.Some? && HeadDefect(c, rows, head.value) != Sound
      && res == Result(false, |rows|, head.value.headSeq, HeadDefect(c, rows, head.value), CoversFrom(rows), 0, "")
  }

  /** chain.Verify */
  method Verify(sha: string -> string, rows: seq<Row>) returns (res: Result)
    ensures IsLegacyVerdict(sha, rows, res)
  {
    var count, coversFrom, prevSeq, headSeq := 0, 0, 0, 0;
    var prevRowHash, headRowHash := "", "";
    for i := 0 to |rows|
      invariant count == i && LegacySound(sha, rows, i)
      invariant i > 0 ==> coversFrom == rows[0].seqNo
      invariant i > 0 ==> prevSeq == headSeq == rows[i - 1].seqNo
      invariant i > 0 ==> prevRowHash == headRowHash == rows[i - 1].rowHash
      invariant i == 0 ==> coversFrom == headSeq == 0 && headRowHash == ""
    {
      var row := rows[i];
      if i == 0 {
        coversFrom := row.seqNo;
        if sha(LegacyMsg(row)) != row.rowHash {
          return Result(false, count, row.seqNo, HashMismatch, coversFrom, 0, "");
        }
      } else {
        if row.seqNo != prevSeq + 1 {
          return Result(false, count, row.seqNo, Gap, coversFrom, 0, "");
        }
        if row.prevHash != prevRowHash {
          return Result(false, count, row.seqNo, Unlinked, coversFrom, 0, "");
        }
        if sha(LegacyMsg(row)) != row.rowHash {
          return Result(false, count, row.seqNo, HashMismatch, coversFrom, 0, "");
        }
      }
      count := count + 1;
      prevSeq, prevRowHash := row.seqNo, row.rowHash;
      headSeq, headRowHash := row.seqNo, row.rowHash;
    }
    return Result(true, count, 0, Sound, coversFrom, headSeq, headRowHash);
  }

  /** chain.VerifySealed */
  method VerifySealed(c: Crypto, rows: seq<Row>, head: Option<Head>) returns (res: Result)
    ensures IsSealedVerdict(c, rows, head, res)
  {
    var count, coversFrom, prevSeq, headSeq := 0, 0, 0, 0;
    var prevRowHash, prevTS, headRowHash := "", "", "";
    var sawKeyed := false;
    for i := 0 to |rows|
      invariant count == i && SealedSound(c, rows, i)
      invariant i > 0 ==> coversFrom == rows[0].seqNo
      invariant i > 0 ==> prevSeq == headSeq == rows[i - 1].seqNo
      invariant i > 0 ==> prevRowHash == headRowHash == rows[i - 1].rowHash
      invariant i > 0 ==> sawKeyed == Keyed(rows[i - 1])
      invariant i > 0 ==> prevTS == if Keyed(rows[i - 1]) then rows[i - 1].timestamp else ""
      invariant i == 0 ==> coversFrom == headSeq == 0 && headRowHash == prevTS == "" && !sawKeyed
    {
      var row := rows[i];
      var keyed := row.algo == HMAC_V2;
      if sawKeyed && !keyed {
        return Result(false, count, row.seqNo, Downgrade, coversFrom, 0, "");
      }
      if keyed && c.mac.None? {
        return Result(false, count, row.seqNo, NoKey, coversFrom, 0, "");
      }
      var expected := Expected(c, row);
      if i == 0 {
        coversFrom := row.seqNo;
        if expected != row.rowHash {
          return Result(false, count, row.seqNo, HashMismatch, coversFrom, 0, "");
        }
      } else {
        if row.seqNo != prevSeq + 1 {
          return Result(false, count, row.seqNo, Gap, coversFrom, 0, "");
        }
        if row.prevHash != prevRowHash {
          return Result(false, count, row.seqNo, Unlinked, coversFrom, 0, "");
        }
        if expected != row.rowHash {
          return Result(false, count, row.seqNo, HashMismatch, coversFrom, 0, "");
        }
      }
      if keyed && prevTS != "" && row.timestamp != "" && LexLess(row.timestamp, prevTS) {
        return Result(false, count, row.seqNo, Backdated, coversFrom, 0, "");
      }
      assert SealedDefect(c, rows, i) == Sound;
      count := count + 1;
      prevSeq, prevRowHash := row.seqNo, row.rowHash;
      if keyed {
        sawKeyed, prevTS := true, row.timestamp;
      } else {
        prevTS := "";
      }
      headSeq, headRowHash := row.seqNo, row.rowHash;
    }
    if head.Some? {
      var h := head.value;
      if c.mac.None? {
        return Result(false, count, h.headSeq, HeadNoKey, coversFrom, 0, "");
      }
      if c.mac.value(HeadMsg(h)) != h.mac {
        return Result(false, count, h.headSeq, HeadForged, coversFrom, 0, "");
      }
      if headSeq < h.headSeq {
        return Result(false, count, h.headSeq, Truncated, coversFrom, 0, "");
      }
      if headSeq == h.headSeq && headRowHash != h.headRowHash {
        return Result(false, count, h.headSeq, HeadMismatch, coversFrom, 0, "");
      }
    }
    return Result(true, count, 0, Sound, coversFrom, headSeq, headRowHash);
  }

  /** A verdict is determined by the rows: both walks are functions of their input. */
  lemma LegacyVerdictUnique(sha: string -> string, rows: seq<Row>, p: Result, q: Result)
    requires IsLegacyVerdict(sha, rows, p) && IsLegacyVerdict(sha, rows, q)
    ensures p == q
  {
    if !p.ok { FirstDefectUnique(sha, rows, p, q); }
    if !q.ok { FirstDefectUnique(sha, rows, q, p); }
  }

  lemma FirstDefectUnique(sha: string -> string, rows: seq<Row>, p: Result, q: Result)
    requires IsLegacyVerdict(sha, rows, p) && IsLegacyVerdict(sha, rows, q) && !p.ok
    ensures !q.ok && q.rowsVerified <= p.rowsVerified
  {
    assert LegacyDefect(sha, rows, p.rowsVerified) != Sound;
  }

  /** The same for the keyed walk, whatever head it is given. */
  lemma SealedVerdictUnique(c: Crypto, rows: seq<Row>, head: Option<Head>, p: Result, q: Result)
    requires IsSealedVerdict(c, rows, head, p) && IsSealedVerdict(c, rows, head, q)
    ensures p == q
  {
    SealedStopUnique(c, rows, head, p, q);
    SealedStopUnique(c, rows, head, q, p);
  }

  lemma SealedStopUnique(c: Crypto, rows: seq<Row>, head: Option<Head>, p: Result, q: Result)
    requires IsSealedVerdict(c, rows, head, p) && IsSealedVerdict(c, rows, head, q)
    ensures p.rowsVerified <= q.rowsVerified
  {
  }

  lemma UnkeyedDefect(c: Crypto, rows: seq<Row>, i: nat)
    requires i < |rows| && forall r :: r in rows ==> !Keyed(r)
    ensures SealedDefect(c, rows, i) == LegacyDefect(c.sha, rows, i)
  {
    assert rows[i] in rows && (i > 0 ==> rows[i - 1] in rows);
  }

  lemma SealedIsLegacy(c: Crypto, rows: seq<Row>, q: Result)
    requires IsSealedVerdict(c, rows, None, q)
    requires forall i :: 0 <= i < |rows| ==> SealedDefect(c, rows, i) == LegacyDefect(c.sha, rows, i)
    ensures IsLegacyVerdict(c.sha, rows, q)
  {
    var n := q.rowsVerified;
    if n < |rows| { assert LegacyDefect(c.sha, rows, n) == SealedDefect(c, rows, n) != NoKey; }
    forall i | 0 <= i < n && i < |rows| ensures LegacyDefect(c.sha, rows, i) == Sound {
      assert SealedDefect(c, rows, i) == Sound;
    }
  }

  /** Rows sealed before the keyed cutover keep verifying under the original algorithm: on a chain
      without keyed rows the two walks give the same verdict, whatever key is configured. */
  lemma LegacyRowsKeepVerifying(c: Crypto, rows: seq<Row>, p: Result, q: Result)
    requires forall r :: r in rows ==> !Keyed(r)
    requires IsLegacyVerdict(c.sha, rows, p) && IsSealedVerdict(c, rows, None, q)
    ensures p == q
  {
    forall i | 0 <= i < |rows| ensures SealedDefect(c, rows, i) == LegacyDefect(c.sha, rows, i) {
      UnkeyedDefect(c, rows, i);
    }
    SealedIsLegacy(c, rows, q);
    LegacyVerdictUnique(c.sha, rows, p, q);
  }

  // ---------------------------------------------------------------- what is accepted

  /** A chain under the unkeyed scheme: every row carries its hash, and after the first every row is
      the next one and names the hash of the one before. */
  ghost predicate LegacyChain(sha: string -> string, rows: seq<Row>) {
    forall i :: 0 <= i < |rows| ==> LegacyRowFits(sha, rows, i)
  }

  predicate LegacyRowFits(sha: string -> string, rows: seq<Row>, i: nat)
    requires i < |rows|
  {
    rows[i].rowHash == sha(LegacyMsg(rows[i])) && (i > 0 ==> Follows(rows[i - 1], rows[i]))
  }

  predicate Follows(r: Row, next: Row) { next.seqNo == r.seqNo + 1 && next.prevHash == r.rowHash }

  /** A row after a keyed one is keyed, and not older unless one of the two has no timestamp. */
  predicate KeepsSealing(r: Row, next: Row) {
    Keyed(r) ==> Keyed(next) && (r.timestamp == "" || next.timestamp == "" || Le(r.timestamp, next.timestamp))
  }

  /** A chain across the cutover: unkeyed rows, then keyed ones. */
  ghost predicate SealedChain(c: Crypto, rows: seq<Row>) {
    forall i :: 0 <= i < |rows| ==> SealedRowFits(c, rows, i)
  }

  predicate SealedRowFits(c: Crypto, rows: seq<Row>, i: nat)
    requires i < |rows|
  {
    && (Keyed(rows[i]) ==> c.mac.Some?)
    && rows[i].rowHash == Expected(c, rows[i])
    && (i > 0 ==> Follows(rows[i - 1], rows[i]) && KeepsSealing(rows[i - 1], rows[i]))
  }

  /** A head that was recorded for this chain or a shorter one, or none at all. */
  ghost predicate HeadFits(c: Crypto, rows: seq<Row>, head: Option<Head>) {
    head.Some? ==>
      && Authentic(c, head.value)
      && (TipSeq(rows) > head.value.headSeq ||
          (TipSeq(rows) == head.value.headSeq && TipHash(rows) == head.value.headRowHash))
  }

  /** The unkeyed walk accepts a chain, and nothing else; it then reports where the chain begins and
      its tip. */
  lemma VerifyAcceptsExactly(sha: string -> string, rows: seq<Row>, res: Result)
    requires IsLegacyVerdict(sha, rows, res)
    ensures res.ok <==> LegacyChain(sha, rows)
    ensures res.ok && rows != [] ==>
              var tip := rows[|rows| - 1];
              res == Result(true, |rows|, 0, Sound, rows[0].seqNo, tip.seqNo, tip.rowHash)
  {
    LegacyChainIsSound(sha, rows);
  }

  lemma LegacyChainIsSound(sha: string -> string, rows: seq<Row>)
    ensures LegacySound(sha, rows, |rows|) <==> LegacyChain(sha, rows)
  {
    assert forall i :: 0 <= i < |rows| ==> (LegacyDefect(sha, rows, i) == Sound <==> LegacyRowFits(sha, rows, i));
  }

  /** The keyed walk accepts every chain the key holder can have built, an unkeyed prefix included,
      against every head recorded for it, and nothing else. */
  lemma VerifySealedAcceptsExactly(c: Crypto, rows: seq<Row>, head: Option<Head>, res: Result)
    requires IsSealedVerdict(c, rows, head, res)
    ensures res.ok <==> SealedChain(c, rows) && HeadFits(c, rows, head)
    ensures res.ok && rows != [] ==>
              var tip := rows[|rows| - 1];
              res == Result(true, |rows|, 0, Sound, rows[0].seqNo, tip.seqNo, tip.rowHash)
  {
    SealedChainIsSound(c, rows);
    if SealedChain(c, rows) && head.Some? { SoundUpToHead(c, rows, head.value, res); }
  }

  lemma SealedChainIsSound(c: Crypto, rows: seq<Row>)
    ensures SealedSound(c, rows, |rows|) <==> SealedChain(c, rows)
  {
    forall i | 0 <= i < |rows| ensures SealedDefect(c, rows, i) == Sound <==> SealedRowFits(c, rows, i) {
      SealedDefectSound(c, rows, i);
    }
  }

  lemma SealedDefectSound(c: Crypto, rows: seq<Row>, i: nat)
    requires i < |rows|
    ensures SealedDefect(c, rows, i) == Sound <==> SealedRowFits(c, rows, i)
  {
  }

  // ---------------------------------------------------------------- what is found

  /** A middle row that was deleted is found at the row after it. */
  lemma DeletionFound(c: Crypto, rows: seq<Row>, i: nat, head: Option<Head>, res: Result)
    requires SealedSound(c, rows, |rows|) && 0 < i < |rows| - 1
    requires IsSealedVerdict(c, rows[..i] + rows[i + 1..], head, res)
    ensures !res.ok && res.rowsVerified == i && res.firstBreakSeq == rows[i].seqNo + 1 && res.detail == Gap
  {
    var cut := rows[..i] + rows[i + 1..];
    forall j | 0 <= j < i ensures SealedDefect(c, cut, j) == Sound {
      assert cut[j] == rows[j] && (j > 0 ==> cut[j - 1] == rows[j - 1]);
      assert SealedDefect(c, rows, j) == Sound;
    }
    assert cut[i] == rows[i + 1] && cut[i - 1] == rows[i - 1];
    assert SealedDefect(c, rows, i) == SealedDefect(c, rows, i + 1) == Sound;
    assert SealedDefect(c, cut, i) == Gap;
    StoppedAt(c, cut, head, res, i);
  }

  /** A row whose content was edited in place is found where it stands, unless its hash clashes. */
  lemma EditFound(c: Crypto, rows: seq<Row>, i: nat, r: Row, head: Option<Head>, res: Result)
    requires SealedSound(c, rows, |rows|) && i < |rows| && IsSealedVerdict(c, rows[i := r], head, res)
    requires r.seqNo == rows[i].seqNo && r.prevHash == rows[i].prevHash && r.rowHash == rows[i].rowHash &&
             r.algo == rows[i].algo
    requires !SameSealed(r, rows[i])
    ensures (!res.ok && res.rowsVerified == i && res.firstBreakSeq == r.seqNo && res.detail == HashMismatch) ||
            (if Keyed(r) then SealClash(c, r, rows[i]) else ShaClash(c.sha, r, rows[i]))
  {
    var edited := rows[i := r];
    forall j | 0 <= j < i ensures SealedDefect(c, edited, j) == Sound { assert SealedDefect(c, rows, j) == Sound; }
    assert SealedDefect(c, rows, i) == Sound;
    LegacyMsgInjective(r, rows[i]);
    KeyedMsgInjective(r, rows[i]);
    if Expected(c, r) != Expected(c, rows[i]) {
      assert SealedDefect(c, edited, i) == HashMismatch;
      StoppedAt(c, edited, head, res, i);
    }
  }

  /** Newest rows that were deleted are found against a head that names the tip. */
  lemma TruncationFound(c: Crypto, rows: seq<Row>, k: nat, h: Head, res: Result)
    requires SealedSound(c, rows, |rows|) && k < |rows| && Authentic(c, h) && 0 < h.headSeq == TipSeq(rows)
    requires IsSealedVerdict(c, rows[..k], Some(h), res)
    ensures res == Result(false, k, h.headSeq, Truncated, CoversFrom(rows[..k]), 0, "")
  {
    var kept := rows[..k];
    forall j | 0 <= j < k ensures SealedDefect(c, kept, j) == Sound { assert SealedDefect(c, rows, j) == Sound; }
    if k > 0 { KeyedRowsAreSuffix(c, rows, k - 1, |rows| - 1); }
    SoundUpToHead(c, kept, h, res);
  }

  /** The walk stops at the first defective row. */
  lemma StoppedAt(c: Crypto, rows: seq<Row>, head: Option<Head>, res: Result, i: nat)
    requires IsSealedVerdict(c, rows, head, res) && i < |rows|
    requires SealedSound(c, rows, i) && SealedDefect(c, rows, i) != Sound
    ensures !res.ok && res.rowsVerified == i && res.firstBreakSeq == rows[i].seqNo &&
            res.detail == SealedDefect(c, rows, i)
  {
  }

  // ---------------------------------------------------------------- tamper evidence

  ghost predicate Linked(rows: seq<Row>) {
    forall i :: 1 <= i < |rows| ==> rows[i].prevHash == rows[i - 1].rowHash
  }

  /** The row j places before the tip. */
  function FromTip(rows: seq<Row>, j: nat): Row
    requires j < |rows|
  {
    rows[|rows| - 1 - j]
  }

  /** Two hash-linked chains with one tip agree row by row back from the tip, up to the first pair
      whose hash clashes. */
  lemma {:induction false} LinkedAgree(a: seq<Row>, b: seq<Row>, same: (Row, Row) -> bool, clash: (Row, Row) -> bool,
                                       k: nat)
    requires Linked(a) && Linked(b) && 0 < k <= |a| && k <= |b|
    requires TipHash(a) == TipHash(b)
    requires forall r, q :: r in a && q in b && r.rowHash == q.rowHash ==> same(r, q) || clash(r, q)
    requires forall r, q :: r in a && q in b && same(r, q) ==> r.prevHash == q.prevHash
    ensures (forall j :: 0 <= j < k ==>
               same(FromTip(a, j), FromTip(b, j)) && FromTip(a, j).rowHash == FromTip(b, j).rowHash) ||
            (exists j :: 0 <= j < k && clash(FromTip(a, j), FromTip(b, j)))
  {
    var x, y := FromTip(a, k - 1), FromTip(b, k - 1);
    assert x in a && y in b;
    if k > 1 {
      LinkedAgree(a, b, same, clash, k - 1);
      if !(exists j :: 0 <= j < k - 1 && clash(FromTip(a, j), FromTip(b, j))) {
        var x', y' := FromTip(a, k - 2), FromTip(b, k - 2);
        assert x' in a && y' in b && same(x', y');
        assert x'.prevHash == x.rowHash && y'.prevHash == y.rowHash;
      }
    }
    if x.rowHash == y.rowHash && !same(x, y) {
      assert clash(x, y);
    }
  }

  /** Different messages with one SHA-256. */
  predicate ShaClash(sha: string -> string, r: Row, q: Row) {
    LegacyMsg(r) != LegacyMsg(q) && sha(LegacyMsg(r)) == sha(LegacyMsg(q))
  }

  /** Tamper evidence of the unkeyed chain: two chains that both verify and end in the same hash
      carry the same content in every row both of them cover, or two of those rows are a SHA-256
      collision. */
  lemma SameTipSameHistory(sha: string -> string, a: seq<Row>, b: seq<Row>)
    requires a != [] && b != [] && TipHash(a) == TipHash(b)
    requires LegacySound(sha, a, |a|) && LegacySound(sha, b, |b|)
    ensures var k := if |a| <= |b| then |a| else |b|;
            (forall j :: 0 <= j < k ==>
               SameContent(FromTip(a, j), FromTip(b, j)) && FromTip(a, j).rowHash == FromTip(b, j).rowHash) ||
            (exists j :: 0 <= j < k && ShaClash(sha, FromTip(a, j), FromTip(b, j)))
  {
    var k := if |a| <= |b| then |a| else |b|;
    LegacySoundIsLinked(sha, a);
    LegacySoundIsLinked(sha, b);
    forall r, q | r in a && q in b && r.rowHash == q.rowHash
      ensures SameContent(r, q) || ShaClash(sha, r, q)
    {
      LegacyMsgInjective(r, q);
    }
    LinkedAgree(a, b, (r, q) => SameContent(r, q), (r, q) => ShaClash(sha, r, q), k);
  }

  lemma LegacySoundIsLinked(sha: string -> string, rows: seq<Row>)
    requires LegacySound(sha, rows, |rows|)
    ensures Linked(rows) && forall r :: r in rows ==> r.rowHash == sha(LegacyMsg(r))
  {
    forall i | 1 <= i < |rows| ensures rows[i].prevHash == rows[i - 1].rowHash {
      assert LegacyDefect(sha, rows, i) == Sound;
    }
    forall r | r in rows ensures r.rowHash == sha(LegacyMsg(r)) {
      var i :| 0 <= i < |rows| && rows[i] == r;
      assert LegacyDefect(sha, rows, i) == Sound;
    }
  }

  /** Rows hashed under different schemes, or under different messages, with one digest. */
  predicate SealClash(c: Crypto, r: Row, q: Row) {
    && c.mac.Some?
    && Expected(c, r) == Expected(c, q)
    && (Keyed(r) != Keyed(q) || (if Keyed(r) then KeyedMsg(r) != KeyedMsg(q) else LegacyMsg(r) != LegacyMsg(q)))
  }

  predicate SameSealed(r: Row, q: Row) {
    SameContent(r, q) && Keyed(r) == Keyed(q) && (Keyed(r) ==> r.timestamp == q.timestamp)
  }

  /** Tamper evidence of the keyed chain, across the cutover: the unkeyed prefix is pinned by the
      keyed rows after it, and the timestamp of every keyed row is pinned too. */
  lemma SameTipSameSealedHistory(c: Crypto, a: seq<Row>, b: seq<Row>)
    requires a != [] && b != [] && TipHash(a) == TipHash(b) && c.mac.Some?
    requires SealedSound(c, a, |a|) && SealedSound(c, b, |b|)
    ensures var k := if |a| <= |b| then |a| else |b|;
            (forall j :: 0 <= j < k ==>
               SameSealed(FromTip(a, j), FromTip(b, j)) && FromTip(a, j).rowHash == FromTip(b, j).rowHash) ||
            (exists j :: 0 <= j < k && SealClash(c, FromTip(a, j), FromTip(b, j)))
  {
    var k := if |a| <= |b| then |a| else |b|;
    SealedSoundIsLinked(c, a);
    SealedSoundIsLinked(c, b);
    forall r, q | r in a && q in b && r.rowHash == q.rowHash
      ensures SameSealed(r, q) || SealClash(c, r, q)
    {
      LegacyMsgInjective(r, q);
      KeyedMsgInjective(r, q);
    }
    LinkedAgree(a, b, (r, q) => SameSealed(r, q), (r, q) => SealClash(c, r, q), k);
  }

  lemma SealedSoundIsLinked(c: Crypto, rows: seq<Row>)
    requires SealedSound(c, rows, |rows|)
    ensures Linked(rows)
    ensures forall r :: r in rows ==> (Keyed(r) ==> c.mac.Some?) && r.rowHash == Expected(c, r)
  {
    forall i | 1 <= i < |rows| ensures rows[i].prevHash == rows[i - 1].rowHash {
      assert SealedDefect(c, rows, i) == Sound;
    }
    forall r | r in rows ensures (Keyed(r) ==> c.mac.Some?) && r.rowHash == Expected(c, r) {
      var i :| 0 <= i < |rows| && rows[i] == r;
      assert SealedDefect(c, rows, i) == Sound;
    }
  }

  /** The scheme never goes back: the keyed rows of a sound chain are a suffix of it, with
      consecutive sequence numbers throughout. */
  lemma {:induction false} KeyedRowsAreSuffix(c: Crypto, rows: seq<Row>, i: nat, j: nat)
    requires SealedSound(c, rows, |rows|) && i <= j < |rows|
    ensures Keyed(rows[i]) ==> Keyed(rows[j])
    ensures rows[j].seqNo - rows[i].seqNo == j - i
    decreases j
  {
    if i < j {
      KeyedRowsAreSuffix(c, rows, i, j - 1);
      assert SealedDefect(c, rows, j) == Sound;
    }
  }

  // ---------------------------------------------------------------- keyed rows are genuine

  /** Messages the holder of the key has authenticated: rows it sealed and heads it recorded. */
  ghost predicate Issued(m: string, sealedRows: set<Row>, heads: set<Head>) {
    (exists g :: g in sealedRows && m == KeyedMsg(g)) || (exists h :: h in heads && m == HeadMsg(h))
  }

  /** The ideal property of the MAC on what the database holds: a tag that checks was issued. */
  ghost predicate Unforged(mac: string -> string, rows: seq<Row>, head: Option<Head>, sealedRows: set<Row>,
                           heads: set<Head>)
  {
    && (forall r :: r in rows && Keyed(r) && r.rowHash == mac(KeyedMsg(r)) ==> Issued(KeyedMsg(r), sealedRows, heads))
    && (head.Some? && head.value.mac == mac(HeadMsg(head.value)) ==> Issued(HeadMsg(head.value), sealedRows, heads))
  }

  /** The rows the key holder sealed carry their MAC. */
  ghost predicate Sealing(mac: string -> string, sealedRows: set<Row>) {
    forall g :: g in sealedRows ==> g.rowHash == mac(KeyedMsg(g))
  }

  /** What the key holder did, for all the tenants it serves: it numbered the rows of each tenant, and
      every head it recorded names a row it sealed for the same tenant. */
  ghost predicate Journal(mac: string -> string, sealedRows: set<Row>, heads: set<Head>) {
    && Sealing(mac, sealedRows)
    && (forall g, g' :: g in sealedRows && g' in sealedRows && g.tenant == g'.tenant && g.seqNo == g'.seqNo ==> g == g')
    && (forall h :: h in heads ==> exists g :: g in sealedRows && Names(h, g))
  }

  predicate Names(h: Head, g: Row) {
    g.tenant == h.tenant && g.seqNo == h.headSeq && g.rowHash == h.headRowHash
  }

  /** The row is the one that was sealed, column for column. */
  predicate IsGenuine(r: Row, g: Row) {
    SameContent(r, g) && r.timestamp == g.timestamp && r.rowHash == g.rowHash
  }

  /** Every keyed row of an accepted chain is one the key holder sealed, column for column, and the
      accepted head is one it recorded. Edits, forged appends and replayed head MACs are out. */
  lemma AcceptedKeyedRowsAreGenuine(c: Crypto, rows: seq<Row>, head: Option<Head>, res: Result,
                                    sealedRows: set<Row>, heads: set<Head>)
    requires c.mac.Some? && IsSealedVerdict(c, rows, head, res) && res.ok
    requires Unforged(c.mac.value, rows, head, sealedRows, heads) && Sealing(c.mac.value, sealedRows)
    ensures forall r :: r in rows && Keyed(r) ==> exists g :: g in sealedRows && IsGenuine(r, g)
    ensures head.Some? ==> exists h :: h in heads && HeadMsg(h) == HeadMsg(head.value)
  {
    SealedSoundIsLinked(c, rows);
    forall r | r in rows && Keyed(r) ensures exists g :: g in sealedRows && IsGenuine(r, g) {
      forall h | h in heads ensures KeyedMsg(r) != HeadMsg(h) { RowIsNeverHead(r, h); }
      var g :| g in sealedRows && KeyedMsg(r) == KeyedMsg(g);
      KeyedMsgInjective(r, g);
      assert IsGenuine(r, g);
    }
    if head.Some? {
      forall g | g in sealedRows ensures KeyedMsg(g) != HeadMsg(head.value) { RowIsNeverHead(g, head.value); }
    }
  }

  /** With a recorded head, an accepted chain reaches at least the head's sequence number, and its
      row of the head's tenant at that number, when keyed, still carries the recorded hash. */
  lemma AcceptedChainReachesHead(c: Crypto, rows: seq<Row>, h: Head, res: Result,
                                 sealedRows: set<Row>, heads: set<Head>)
    requires c.mac.Some? && IsSealedVerdict(c, rows, Some(h), res) && res.ok
    requires Unforged(c.mac.value, rows, Some(h), sealedRows, heads) && Journal(c.mac.value, sealedRows, heads)
    ensures TipSeq(rows) >= h.headSeq
    ensures forall r :: r in rows && Keyed(r) && r.tenant == h.tenant && r.seqNo == h.headSeq ==>
              r.rowHash == h.headRowHash
  {
    AcceptedKeyedRowsAreGenuine(c, rows, Some(h), res, sealedRows, heads);
    HeadNamesSealed(c.mac.value, sealedRows, heads, h);
    var g' :| g' in sealedRows && Names(h, g');
    forall r | r in rows && Keyed(r) && r.tenant == h.tenant && r.seqNo == h.headSeq
      ensures r.rowHash == h.headRowHash
    {
      var g :| g in sealedRows && IsGenuine(r, g);
    }
  }

  /** The head names a row that was sealed. */
  lemma HeadNamesSealed(mac: string -> string, sealedRows: set<Row>, heads: set<Head>, h: Head)
    requires Journal(mac, sealedRows, heads) && exists h' :: h' in heads && HeadMsg(h') == HeadMsg(h)
    ensures exists g :: g in sealedRows && Names(h, g)
  {
    var h' :| h' in heads && HeadMsg(h') == HeadMsg(h);
    HeadMsgInjective(h', h);
    var g :| g in sealedRows && Names(h', g);
    assert Names(h, g);
  }

  /** The chain the key holder built up to a row it sealed. */
  ghost predicate BuiltUpTo(c: Crypto, chain: seq<Row>, g: Row) {
    chain != [] && chain[|chain| - 1] == g && SealedSound(c, chain, |chain|)
  }

  /** Tamper evidence and genuineness together: an accepted chain that ends in a keyed row is the chain
      the key holder built up to that row, the unkeyed rows before the cutover included, in every row
      both of them cover; or two of those rows are a collision. */
  lemma AcceptedChainIsGenuine(c: Crypto, rows: seq<Row>, head: Option<Head>, res: Result,
                               sealedRows: set<Row>, heads: set<Head>, history: Row -> seq<Row>) returns (g: Row)
    requires c.mac.Some? && IsSealedVerdict(c, rows, head, res) && res.ok
    requires Unforged(c.mac.value, rows, head, sealedRows, heads) && Sealing(c.mac.value, sealedRows)
    requires forall q :: q in sealedRows ==> BuiltUpTo(c, history(q), q)
    requires rows != [] && Keyed(rows[|rows| - 1])
    ensures g in sealedRows && IsGenuine(rows[|rows| - 1], g)
    ensures var b := history(g);
            var k := if |rows| <= |b| then |rows| else |b|;
            (forall j :: 0 <= j < k ==> SameSealed(FromTip(rows, j), FromTip(b, j))) ||
            (exists j :: 0 <= j < k && SealClash(c, FromTip(rows, j), FromTip(b, j)))
  {
    AcceptedKeyedRowsAreGenuine(c, rows, head, res, sealedRows, heads);
    var tip := rows[|rows| - 1];
    assert tip in rows;
    g :| g in sealedRows && IsGenuine(tip, g);
    SameTipSameSealedHistory(c, rows, history(g));
  }

  /** With every row sound, the head decides. */
  lemma SoundUpToHead(c: Crypto, rows: seq<Row>, h: Head, res: Result)
    requires SealedSound(c, rows, |rows|) && IsSealedVerdict(c, rows, Some(h), res)
    ensures res.ok <==> HeadDefect(c, rows, h) == Sound
  {
  }

  ghost predicate Authentic(c: Crypto, h: Head) {
    c.mac.Some? && c.mac.value(HeadMsg(h)) == h.mac
  }

  /** The documentation promises that the row at the recorded sequence number hashes to the recorded
      head. The walk compares it at the tip only: a sound chain whose row there has another hash is
      accepted if and only if that row is not the tip. */
  lemma HeadRowComparedOnlyAtTip(c: Crypto, rows: seq<Row>, h: Head, r: Row, res: Result)
    requires Authentic(c, h) && SealedSound(c, rows, |rows|) && IsSealedVerdict(c, rows, Some(h), res)
    requires r in rows && r.seqNo == h.headSeq && r.rowHash != h.headRowHash
    ensures res.ok <==> TipSeq(rows) != h.headSeq
  {
    var i :| 0 <= i < |rows| && rows[i] == r;
    KeyedRowsAreSuffix(c, rows, i, |rows| - 1);
    SoundUpToHead(c, rows, h, res);
  }

  /** The unkeyed chain over given contents, numbered from 1. */
  function Resealed(sha: string -> string, cs: seq<Row>): (rows: seq<Row>)
    ensures |rows| == |cs|
  {
    if cs == [] then []
    else
      var before := Resealed(sha, cs[..|cs| - 1]);
      var r := cs[|cs| - 1].(seqNo := |cs|, prevHash := TipHash(before), algo := "");
      before + [r.(rowHash := sha(LegacyMsg(r)))]
  }

  /** The row carries the given content. */
  predicate CarriesContent(r: Row, content: Row) {
    r == content.(seqNo := r.seqNo, prevHash := r.prevHash, rowHash := r.rowHash, algo := "")
  }

  lemma SoundSnoc(c: Crypto, rows: seq<Row>, r: Row)
    requires SealedSound(c, rows, |rows|) && SealedDefect(c, rows + [r], |rows|) == Sound
    ensures SealedSound(c, rows + [r], |rows + [r]|)
  {
    forall i | 0 <= i < |rows| ensures SealedDefect(c, rows + [r], i) == Sound {
      assert SealedDefect(c, rows, i) == Sound;
    }
  }

  lemma UnkeyedSnoc(c: Crypto, rows: seq<Row>, r: Row)
    requires SealedSound(c, rows, |rows|) && !Keyed(r) && r.rowHash == c.sha(LegacyMsg(r))
    requires rows != [] ==> !Keyed(rows[|rows| - 1]) && r.seqNo == TipSeq(rows) + 1 && r.prevHash == TipHash(rows)
    ensures SealedSound(c, rows + [r], |rows + [r]|)
  {
    SoundSnoc(c, rows, r);
  }

  ghost predicate CarryContents(rows: seq<Row>, cs: seq<Row>) {
    |rows| == |cs| && forall i :: 0 <= i < |cs| ==> CarriesContent(rows[i], cs[i])
  }

  lemma {:induction false} ResealedIsSound(c: Crypto, cs: seq<Row>, rows: seq<Row>)
    requires rows == Resealed(c.sha, cs)
    ensures SealedSound(c, rows, |rows|) && TipSeq(rows) == |cs| && CarryContents(rows, cs)
    decreases cs
  {
    if cs != [] {
      var n := |cs| - 1;
      var before := Resealed(c.sha, cs[..n]);
      ResealedIsSound(c, cs[..n], before);
      var r := cs[n].(seqNo := |cs|, prevHash := TipHash(before), algo := "");
      var last := r.(rowHash := c.sha(LegacyMsg(r)));
      assert LegacyMsg(last) == LegacyMsg(r);
      assert n > 0 ==> CarriesContent(before[n - 1], cs[..n][n - 1]);
      UnkeyedSnoc(c, before, last);
      ContentSnoc(before, last, cs);
    }
  }

  lemma ContentSnoc(before: seq<Row>, last: Row, cs: seq<Row>)
    requires |cs| == |before| + 1 && CarriesContent(last, cs[|before|])
    requires CarryContents(before, cs[..|before|])
    ensures CarryContents(before + [last], cs)
  {
    forall i | 0 <= i < |before| ensures CarriesContent((before + [last])[i], cs[i]) {
      assert CarriesContent(before[i], cs[..|before|][i]);
    }
  }

  /** What a recorded head pins of an unkeyed chain. For any contents at all, the chain resealed over
      them is accepted against an authentic head if and only if it is longer than the head's number,
      or as long and with the recorded tip. The documentation relies on the first keyed row to pin
      the unkeyed rows; when there is none, only the length is pinned. */
  lemma HeadPinsUnkeyedLength(c: Crypto, cs: seq<Row>, rows: seq<Row>, h: Head, res: Result)
    requires rows == Resealed(c.sha, cs) && Authentic(c, h) && IsSealedVerdict(c, rows, Some(h), res)
    ensures CarryContents(rows, cs)
    ensures res.ok <==> |cs| > h.headSeq || (|cs| == h.headSeq && TipHash(rows) == h.headRowHash)
  {
    ResealedIsSound(c, cs, rows);
    HeadDecides(c, rows, h, res);
  }

  lemma HeadDecides(c: Crypto, rows: seq<Row>, h: Head, res: Result)
    requires Authentic(c, h) && SealedSound(c, rows, |rows|) && IsSealedVerdict(c, rows, Some(h), res)
    ensures res.ok <==> TipSeq(rows) > h.headSeq || (TipSeq(rows) == h.headSeq && TipHash(rows) == h.headRowHash)
  {
    SoundUpToHead(c, rows, h, res);
  }

  // ---------------------------------------------------------------- backdating

  /** The walk is meant to enforce that adjacent keyed rows do not go back in time. It passes over
      empty timestamps, so two adjacent keyed rows of a sound chain are out of order exactly when the
      later one has none and the earlier one has. */
  lemma AdjacentOutOfOrder(c: Crypto, rows: seq<Row>, i: nat)
    requires SealedSound(c, rows, |rows|) && 0 < i < |rows| && Keyed(rows[i - 1])
    ensures Keyed(rows[i])
    ensures LexLess(rows[i].timestamp, rows[i - 1].timestamp) <==>
            rows[i].timestamp == "" && rows[i - 1].timestamp != ""
  {
    assert SealedDefect(c, rows, i) == Sound;
  }

  /** From its first keyed row on, the timestamps of a sound chain never decrease, between any two
      rows, if and only if no empty one comes after one that is not. */
  lemma TimestampsAscendExactly(c: Crypto, rows: seq<Row>, first: nat)
    requires SealedSound(c, rows, |rows|) && first < |rows| && Keyed(rows[first])
    ensures (forall i, j :: first <= i < j < |rows| ==> Le(rows[i].timestamp, rows[j].timestamp)) <==>
            (forall i, j :: first <= i < j < |rows| && rows[i].timestamp != "" ==> rows[j].timestamp != "")
  {
    if forall i, j :: first <= i < j < |rows| && rows[i].timestamp != "" ==> rows[j].timestamp != "" {
      forall i, j | first <= i < j < |rows| ensures Le(rows[i].timestamp, rows[j].timestamp) {
        if rows[i].timestamp != "" { TimestampsAscend(c, rows, first, i, j); }
      }
    } else {
      var i, j :| first <= i < j < |rows| && rows[i].timestamp != "" && rows[j].timestamp == "";
      assert LexLess(rows[j].timestamp, rows[i].timestamp);
    }
  }

  lemma {:induction false} TimestampsAscend(c: Crypto, rows: seq<Row>, first: nat, i: nat, j: nat)
    requires SealedSound(c, rows, |rows|) && first <= i < j < |rows| && Keyed(rows[first])
    requires forall k :: i <= k <= j ==> rows[k].timestamp != ""
    ensures Le(rows[i].timestamp, rows[j].timestamp)
    decreases j
  {
    KeyedRowsAreSuffix(c, rows, first, j - 1);
    AdjacentOutOfOrder(c, rows, j);
    if i < j - 1 {
      TimestampsAscend(c, rows, first, i, j - 1);
      LeTransitive(rows[i].timestamp, rows[j - 1].timestamp, rows[j].timestamp);
    }
  }

  /** The keyed row that goes after r. */
  function SealedAfter(c: Crypto, r: Row, timestamp: string): Row
    requires c.mac.Some?
  {
    var next := r.(seqNo := r.seqNo + 1, prevHash := r.rowHash, timestamp := timestamp);
    next.(rowHash := c.mac.value(KeyedMsg(next)))
  }

  lemma SealedAfterIsSound(c: Crypto, rows: seq<Row>, timestamp: string) returns (next: Row)
    requires c.mac.Some? && rows != [] && SealedSound(c, rows, |rows|) && Keyed(rows[|rows| - 1])
    requires timestamp == "" || rows[|rows| - 1].timestamp == ""
    ensures SealedSound(c, rows + [next], |rows| + 1) && Keyed(next) && next.timestamp == timestamp
  {
    next := SealedAfter(c, rows[|rows| - 1], timestamp);
    SoundSnoc(c, rows, next);
  }

  lemma FirstIsSound(c: Crypto, timestamp: string) returns (first: Row)
    requires c.mac.Some?
    ensures SealedSound(c, [first], 1) && Keyed(first) && first.timestamp == timestamp
  {
    var blank := Row("", "", "", "", "", "", "", "", 1, "", "", timestamp, HMAC_V2);
    first := blank.(rowHash := c.mac.value(KeyedMsg(blank)));
    assert SealedDefect(c, [first], 0) == Sound;
  }

  /** It does happen: a sound chain whose third row is older than its first. */
  lemma BackdatedAcrossEmpty(c: Crypto)
    requires c.mac.Some?
    ensures exists a, b, d :: SealedSound(c, [a] + [b] + [d], 3) && Keyed(a) && Keyed(b) && Keyed(d) &&
                              LexLess(d.timestamp, a.timestamp)
  {
    var a := FirstIsSound(c, "2");
    var b := SealedAfterIsSound(c, [a], "");
    var d := SealedAfterIsSound(c, [a] + [b], "1");
  }
}
