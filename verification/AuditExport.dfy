/** The offline auditor's verdict (cmd/squadron-audit-verify/main.go, `verifyExport`): sort the
    exported rows, cut them at the attested head, recompute the chain and compare its tip. */
module AuditExport {
  import opened ChainEncoding
  import opened AuditChain

  datatype Attestation = Attestation(headSeq: int, headRowHash: string)

  datatype Outcome = Outcome(
    rowsVerified: nat, chainOK: bool, firstBreakSeq: int, detail: Defect,
    coversFromSeq: int, recomputedSeq: int, recomputedTip: string,
    headSeqMatch: bool, headHashMatch: bool, extraRows: nat, continuationOK: bool, pass: bool)

  // ---------------------------------------------------------------- sort.SliceStable by Seq

  /** `r` goes after every row whose seq is not larger. */
  function Insert(r: Row, rows: seq<Row>): (s: seq<Row>) {
    if rows == [] || rows[|rows| - 1].seqNo <= r.seqNo then rows + [r]
    else Insert(r, rows[..|rows| - 1]) + [rows[|rows| - 1]]
  }

  function Sorted(rows: seq<Row>): (s: seq<Row>) {
    if rows == [] then [] else Insert(rows[|rows| - 1], Sorted(rows[..|rows| - 1]))
  }

  ghost predicate Ascending(rows: seq<Row>) {
    forall i, j :: 0 <= i < j < |rows| ==> rows[i].seqNo <= rows[j].seqNo
  }

  lemma {:induction false} InsertKeeps(r: Row, rows: seq<Row>)
    ensures multiset(Insert(r, rows)) == multiset(rows) + multiset{r}
  {
    if rows != [] && rows[|rows| - 1].seqNo > r.seqNo {
      InsertKeeps(r, rows[..|rows| - 1]);
      assert rows == rows[..|rows| - 1] + [rows[|rows| - 1]];
    }
  }

  lemma {:induction false} InsertAscends(r: Row, rows: seq<Row>)
    requires Ascending(rows)
    ensures Ascending(Insert(r, rows))
    ensures forall q :: q in Insert(r, rows) ==> q == r || q in rows
  {
    if rows != [] && rows[|rows| - 1].seqNo > r.seqNo {
      var s := Insert(r, rows[..|rows| - 1]);
      InsertAscends(r, rows[..|rows| - 1]);
      assert forall j :: 0 <= j < |s| ==> s[j] in s && s[j].seqNo <= rows[|rows| - 1].seqNo;
    }
  }

  lemma InsertSorts(r: Row, init: seq<Row>, sorted: seq<Row>, rows: seq<Row>)
    requires rows == init + [r] && Ascending(sorted) && multiset(sorted) == multiset(init)
    ensures Ascending(Insert(r, sorted)) && multiset(Insert(r, sorted)) == multiset(rows)
  {
    InsertAscends(r, sorted);
    InsertKeeps(r, sorted);
  }

  lemma {:induction false} SortedSorts(rows: seq<Row>)
    ensures Ascending(Sorted(rows)) && multiset(Sorted(rows)) == multiset(rows)
  {
    if rows != [] {
      var init, r := rows[..|rows| - 1], rows[|rows| - 1];
      SortedSorts(init);
      InsertSorts(r, init, Sorted(init), rows);
    }
  }

  /** The rows with one sequence number, in order. */
  function OfSeq(rows: seq<Row>, s: int): seq<Row> {
    if rows == [] then []
    else OfSeq(rows[..|rows| - 1], s) + (if rows[|rows| - 1].seqNo == s then [rows[|rows| - 1]] else [])
  }

  lemma OfSeqSnoc(rows: seq<Row>, r: Row, s: int)
    ensures OfSeq(rows + [r], s) == if r.seqNo == s then OfSeq(rows, s) + [r] else OfSeq(rows, s)
  {
    assert (rows + [r])[..|rows|] == rows;
  }

  lemma {:induction false} OfSeqInsert(r: Row, rows: seq<Row>, s: int)
    ensures OfSeq(Insert(r, rows), s) == if r.seqNo == s then OfSeq(rows, s) + [r] else OfSeq(rows, s)
  {
    if rows == [] || rows[|rows| - 1].seqNo <= r.seqNo {
      OfSeqSnoc(rows, r, s);
      assert Insert(r, rows) == rows + [r];
    } else {
      var init, l := rows[..|rows| - 1], rows[|rows| - 1];
      OfSeqInsert(r, init, s);
      OfSeqInsertStep(r, init, l, rows, s);
    }
  }

  lemma OfSeqInsertStep(r: Row, init: seq<Row>, l: Row, rows: seq<Row>, s: int)
    requires r.seqNo < l.seqNo && rows == init + [l]
    requires OfSeq(Insert(r, init), s) == if r.seqNo == s then OfSeq(init, s) + [r] else OfSeq(init, s)
    ensures OfSeq(Insert(r, rows), s) == if r.seqNo == s then OfSeq(rows, s) + [r] else OfSeq(rows, s)
  {
    InsertBefore(r, init, l);
    OfSeqSnoc(Insert(r, init), l, s);
    OfSeqSnoc(init, l, s);
  }

  /** The sort is stable. */
  lemma {:induction false} SortedIsStable(rows: seq<Row>, s: int)
    ensures OfSeq(Sorted(rows), s) == OfSeq(rows, s)
  {
    if rows != [] {
      var init, r := rows[..|rows| - 1], rows[|rows| - 1];
      SortedIsStable(init, s);
      OfSeqInsert(r, Sorted(init), s);
    }
  }

  // ---------------------------------------------------------------- the cut

  /** The rows up to sequence number `head`, in order. */
  function UpTo(rows: seq<Row>, head: int): (p: seq<Row>)
    ensures |p| <= |rows|
  {
    if rows == [] then []
    else UpTo(rows[..|rows| - 1], head) + (if rows[|rows| - 1].seqNo > head then [] else [rows[|rows| - 1]])
  }

  /** The rows the attestation vouches for; head 0 means there is none and takes every row. */
  function Attested(rows: seq<Row>, att: Attestation): seq<Row> {
    if att.headSeq > 0 then UpTo(Sorted(rows), att.headSeq) else Sorted(rows)
  }

  /** The outcome in terms of the two chain verifications it rests on. */
  function Judge(res: Result, att: Attestation, extra: nat, continuation: bool): Outcome {
    var seqMatch := res.ok && res.headSeq == att.headSeq;
    var hashMatch := res.ok && res.headRowHash == att.headRowHash;
    Outcome(res.rowsVerified, res.ok, res.firstBreakSeq, res.detail, res.coversFromSeq,
            res.headSeq, res.headRowHash, seqMatch, hashMatch, extra, continuation,
            res.ok && seqMatch && hashMatch)
  }

  function ExportOutcome(verify: seq<Row> -> Result, rows: seq<Row>, att: Attestation): Outcome {
    var extra := |rows| - |Attested(rows, att)|;
    Judge(verify(Attested(rows, att)), att, if extra < 0 then 0 else extra,
          extra > 0 && verify(Sorted(rows)).ok)
  }

  /** The cutting loop. */
  method CutAtHead(sorted: seq<Row>, head: int) returns (prefix: seq<Row>, extra: nat)
    ensures prefix == UpTo(sorted, head) && extra + |prefix| == |sorted|
  {
    prefix, extra := [], 0;
    for i := 0 to |sorted|
      invariant prefix == UpTo(sorted[..i], head) && extra + |prefix| == i
    {
      assert sorted[..i + 1] == sorted[..i] + [sorted[i]];
      UpToSnoc(sorted[..i], sorted[i], head);
      if sorted[i].seqNo > head {
        extra := extra + 1;
      } else {
        prefix := prefix + [sorted[i]];
      }
    }
    assert sorted[..|sorted|] == sorted;
  }

  lemma SortedLength(rows: seq<Row>)
    ensures |Sorted(rows)| == |rows|
  {
    SortedSorts(rows);
    assert |multiset(Sorted(rows))| == |multiset(rows)|;
  }

  /** verifyExport, for any chain verifier. */
  method VerifyExport(verify: seq<Row> -> Result, rows: seq<Row>, att: Attestation) returns (out: Outcome)
    ensures out == ExportOutcome(verify, rows, att)
    ensures out.extraRows + |Attested(rows, att)| == |rows|
  {
    var sorted := Sorted(rows);
    SortedLength(rows);
    var prefix, extra := sorted, 0;
    if att.headSeq > 0 {
      prefix, extra := CutAtHead(sorted, att.headSeq);
    }
    var continuation := false;
    if extra > 0 {
      continuation := verify(sorted).ok;
    }
    out := Judge(verify(prefix), att, extra, continuation);
  }

  // ---------------------------------------------------------------- rows beyond the head

  lemma {:induction false} UpToInsert(r: Row, rows: seq<Row>, head: int)
    requires Ascending(rows)
    ensures UpTo(Insert(r, rows), head) == if r.seqNo > head then UpTo(rows, head) else Insert(r, UpTo(rows, head))
  {
    if rows == [] || rows[|rows| - 1].seqNo <= r.seqNo {
      UpToInsertLast(r, rows, head);
    } else {
      var init, l := rows[..|rows| - 1], rows[|rows| - 1];
      UpToInsert(r, init, head);
      UpToInsertStep(r, init, l, rows, head);
    }
  }

  lemma UpToInsertLast(r: Row, rows: seq<Row>, head: int)
    requires Ascending(rows) && (rows != [] ==> rows[|rows| - 1].seqNo <= r.seqNo)
    ensures UpTo(Insert(r, rows), head) == if r.seqNo > head then UpTo(rows, head) else Insert(r, UpTo(rows, head))
  {
    UpToSnoc(rows, r, head);
    if r.seqNo <= head { UpToAll(rows, head); }
  }

  lemma UpToInsertStep(r: Row, init: seq<Row>, l: Row, rows: seq<Row>, head: int)
    requires r.seqNo < l.seqNo && rows == init + [l]
    requires UpTo(Insert(r, init), head) == if r.seqNo > head then UpTo(init, head) else Insert(r, UpTo(init, head))
    ensures UpTo(Insert(r, rows), head) == if r.seqNo > head then UpTo(rows, head) else Insert(r, UpTo(rows, head))
  {
    InsertBefore(r, init, l);
    UpToSnoc(Insert(r, init), l, head);
    UpToSnoc(init, l, head);
    InsertBefore(r, UpTo(init, head), l);
  }

  lemma {:induction false} UpToAll(rows: seq<Row>, head: int)
    requires Ascending(rows) && (rows != [] ==> rows[|rows| - 1].seqNo <= head)
    ensures UpTo(rows, head) == rows
  {
    if rows != [] {
      UpToAll(rows[..|rows| - 1], head);
      assert rows == rows[..|rows| - 1] + [rows[|rows| - 1]];
    }
  }

  lemma UpToSnoc(rows: seq<Row>, r: Row, head: int)
    ensures UpTo(rows + [r], head) == if r.seqNo > head then UpTo(rows, head) else UpTo(rows, head) + [r]
  {
    assert (rows + [r])[..|rows|] == rows;
  }

  lemma InsertBefore(r: Row, rows: seq<Row>, l: Row)
    requires r.seqNo < l.seqNo
    ensures Insert(r, rows + [l]) == Insert(r, rows) + [l]
  {
    assert (rows + [l])[..|rows|] == rows;
  }

  lemma UpToSingle(r: Row, head: int)
    ensures UpTo([r], head) == if r.seqNo > head then [] else [r]
  {
    assert [r][..0] == [];
  }

  lemma {:induction false} UpToConcat(a: seq<Row>, b: seq<Row>, head: int)
    ensures UpTo(a + b, head) == UpTo(a, head) + UpTo(b, head)
  {
    if b == [] {
      assert a + b == a;
    } else {
      assert (a + b)[..|a + b| - 1] == a + b[..|b| - 1];
      UpToConcat(a, b[..|b| - 1], head);
    }
  }

  lemma SortedSnoc(rows: seq<Row>, r: Row)
    ensures Sorted(rows + [r]) == Insert(r, Sorted(rows))
  {
    assert (rows + [r])[..|rows|] == rows;
  }

  /** Cutting and sorting commute. */
  lemma {:induction false} UpToSorted(rows: seq<Row>, head: int)
    ensures UpTo(Sorted(rows), head) == Sorted(UpTo(rows, head))
  {
    if rows != [] {
      var init, r := rows[..|rows| - 1], rows[|rows| - 1];
      UpToSorted(init, head);
      SortedSorts(init);
      UpToInsert(r, Sorted(init), head);
      if r.seqNo <= head {
        calc {
          Sorted(UpTo(rows, head));
          Sorted(UpTo(init, head) + [r]);
          { SortedSnoc(UpTo(init, head), r); }
          Insert(r, Sorted(UpTo(init, head)));
        }
      } else {
        assert UpTo(rows, head) == UpTo(init, head);
      }
    }
  }

  /** Post-attestation activity does not count: two exports with the same rows up to the attested
      head, wherever the later rows were interleaved, get the same outcome but for the two fields
      that report the later rows. */
  lemma LaterRowsDoNotMatter(verify: seq<Row> -> Result, rows: seq<Row>, rows': seq<Row>, att: Attestation)
    requires att.headSeq > 0 && UpTo(rows, att.headSeq) == UpTo(rows', att.headSeq)
    ensures var o, o' := ExportOutcome(verify, rows, att), ExportOutcome(verify, rows', att);
            o'.(extraRows := o.extraRows, continuationOK := o.continuationOK) == o
  {
    UpToSorted(rows, att.headSeq);
    UpToSorted(rows', att.headSeq);
  }

  /** Inserting one later row anywhere is such a change. */
  lemma LaterRowIsCut(a: seq<Row>, r: Row, b: seq<Row>, head: int)
    requires r.seqNo > head
    ensures UpTo(a + [r] + b, head) == UpTo(a + b, head)
  {
    UpToConcat(a + [r], b, head);
    UpToConcat(a, [r], head);
    UpToConcat(a, b, head);
    UpToSingle(r, head);
  }

  // ---------------------------------------------------------------- row order

  ghost predicate DistinctSeqs(rows: seq<Row>) {
    forall r, q :: r in rows && q in rows && r.seqNo == q.seqNo ==> r == q
  }

  /** Two ascending arrangements of the same rows are equal when no seq is shared. */
  lemma {:induction false} OneArrangement(a: seq<Row>, b: seq<Row>)
    requires Ascending(a) && Ascending(b) && multiset(a) == multiset(b) && DistinctSeqs(a)
    ensures a == b
  {
    if a == [] {
      assert |multiset(b)| == 0;
    } else {
      SameLast(a, b);
      DropLast(a);
      DropLast(b);
      OneArrangement(a[..|a| - 1], b[..|b| - 1]);
      SameInitAndLast(a, b);
    }
  }

  lemma SameInitAndLast(a: seq<Row>, b: seq<Row>)
    requires a != [] && b != [] && a[..|a| - 1] == b[..|b| - 1] && a[|a| - 1] == b[|b| - 1]
    ensures a == b
  {
    assert a == a[..|a| - 1] + [a[|a| - 1]] && b == b[..|b| - 1] + [b[|b| - 1]];
  }

  lemma DropLast(a: seq<Row>)
    requires a != []
    ensures multiset(a[..|a| - 1]) == multiset(a) - multiset{a[|a| - 1]}
    ensures Ascending(a) ==> Ascending(a[..|a| - 1])
    ensures DistinctSeqs(a) ==> DistinctSeqs(a[..|a| - 1])
  {
    assert a == a[..|a| - 1] + [a[|a| - 1]];
  }

  lemma SameLast(a: seq<Row>, b: seq<Row>)
    requires a != [] && Ascending(a) && Ascending(b) && multiset(a) == multiset(b) && DistinctSeqs(a)
    ensures b != [] && a[|a| - 1] == b[|b| - 1]
  {
    var l := a[|a| - 1];
    assert l in multiset(b);
    assert l in b;
    var m := b[|b| - 1];
    assert m in multiset(a);
    assert m in a;
    assert l.seqNo <= m.seqNo && m.seqNo <= l.seqNo;
  }

  /** The order of the export is not load-bearing: with distinct seqs, every permutation of the
      rows gets the same outcome in every field, for every head. */
  lemma RowOrderDoesNotMatter(verify: seq<Row> -> Result, rows: seq<Row>, rows': seq<Row>, att: Attestation)
    requires multiset(rows) == multiset(rows') && DistinctSeqs(rows)
    ensures ExportOutcome(verify, rows, att) == ExportOutcome(verify, rows', att)
  {
    SortedSorts(rows);
    SortedSorts(rows');
    forall r | r in Sorted(rows) ensures r in rows { assert r in multiset(Sorted(rows)); }
    OneArrangement(Sorted(rows), Sorted(rows'));
    assert |multiset(rows)| == |multiset(rows')|;
  }

  // ---------------------------------------------------------------- what a pass means

  /** A verifier that behaves like chain.Verify. */
  ghost predicate IsChainVerify(verify: seq<Row> -> Result, sha: string -> string) {
    forall rows :: IsLegacyVerdict(sha, rows, verify(rows))
  }

  /** The verdict on every export, with a verifier that behaves like chain.Verify: it passes if and only
      if the rows up to the attested head are a chain that ends in the attested row. A chain that
      begins late, after a retention sweep, passes like any other. */
  lemma PassesExactly(verify: seq<Row> -> Result, sha: string -> string, rows: seq<Row>, att: Attestation)
    requires IsChainVerify(verify, sha)
    ensures var out, a := ExportOutcome(verify, rows, att), Attested(rows, att);
            && (out.pass <==> LegacyChain(sha, a) && TipSeq(a) == att.headSeq && TipHash(a) == att.headRowHash)
            && (out.chainOK <==> LegacyChain(sha, a))
            && (out.headSeqMatch <==> LegacyChain(sha, a) && TipSeq(a) == att.headSeq)
            && (out.headHashMatch <==> LegacyChain(sha, a) && TipHash(a) == att.headRowHash)
            && (out.chainOK ==> out.rowsVerified == |a|)
            && (out.chainOK ==> out.recomputedSeq == TipSeq(a) && out.recomputedTip == TipHash(a))
            && (out.chainOK && a != [] ==> out.coversFromSeq == a[0].seqNo)
  {
    VerifyAcceptsExactly(sha, Attested(rows, att), verify(Attested(rows, att)));
  }

  /** Activity after the attestation is judged on its own: the continuation is fine if and only if there
      are rows beyond the head and the whole export is a chain. */
  lemma ContinuesExactly(verify: seq<Row> -> Result, sha: string -> string, rows: seq<Row>, att: Attestation)
    requires IsChainVerify(verify, sha)
    ensures var out := ExportOutcome(verify, rows, att);
            && out.extraRows == |rows| - |Attested(rows, att)|
            && (out.continuationOK <==> |Attested(rows, att)| < |rows| && LegacyChain(sha, Sorted(rows)))
  {
    AttestedIsNoLonger(rows, att);
    VerifyAcceptsExactly(sha, Sorted(rows), verify(Sorted(rows)));
  }

  lemma AttestedIsNoLonger(rows: seq<Row>, att: Attestation)
    ensures |Attested(rows, att)| <= |rows|
  {
    SortedLength(rows);
  }

  /** Two exports that both pass against one attestation carry the same content in every attested
      row they share, counted back from the head, or exhibit a SHA-256 collision. */
  lemma PassingExportsAgree(verify: seq<Row> -> Result, sha: string -> string, rows: seq<Row>, rows': seq<Row>,
                            att: Attestation)
    requires IsChainVerify(verify, sha) && att.headSeq > 0
    requires ExportOutcome(verify, rows, att).pass && ExportOutcome(verify, rows', att).pass
    ensures var a, b := Attested(rows, att), Attested(rows', att);
            var k := if |a| <= |b| then |a| else |b|;
            && k > 0 && TipSeq(a) == TipSeq(b) == att.headSeq
            && ((forall j :: 0 <= j < k ==>
                 SameContent(FromTip(a, j), FromTip(b, j)) && FromTip(a, j).rowHash == FromTip(b, j).rowHash) ||
                (exists j :: 0 <= j < k && ShaClash(sha, FromTip(a, j), FromTip(b, j))))
  {
    var a, b := Attested(rows, att), Attested(rows', att);
    assert IsLegacyVerdict(sha, a, verify(a)) && IsLegacyVerdict(sha, b, verify(b));
    SameTipSameHistory(sha, a, b);
  }
}
