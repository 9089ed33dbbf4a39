/** Reading a CSV audit export (cmd/squadron-audit-verify/main.go, `parseExportCSV`). Columns are
    found by header name, so neither their order nor extra columns matter. */
module ExportCSV {
  import opened GoStrings
  import opened ChainEncoding

  /** The required columns. */
  datatype Column =
    | TenantID | Seq | PrevHash | RowHash | ID | Actor | EventType | TargetType | TargetID | Action | Payload
  {
    function Name(): string {
      match this
      case TenantID => "tenant_id"
      case Seq => "seq"
      case PrevHash => "prev_hash"
      case RowHash => "row_hash"
      case ID => "id"
      case Actor => "actor"
      case EventType => "event_type"
      case TargetType => "target_type"
      case TargetID => "target_id"
      case Action => "action"
      case Payload => "payload"
    }
  }

  const COLUMNS: seq<Column> :=
    [TenantID, Seq, PrevHash, RowHash, ID, Actor, EventType, TargetType, TargetID, Action, Payload]

  datatype Parsed = Rows(rows: seq<Row>) | EmptyExport | MissingColumn(column: Column) | BadSeq(line: nat)

  const BOM: char := '\U{FEFF}'

  /** A header cell without a byte-order mark and white space. */
  function ColumnName(cell: string): string {
    TrimSpace(if cell != "" && cell[0] == BOM then cell[1..] else cell)
  }

  /** The last column of that name, as the header map keeps it; -1 when there is none. */
  function ColumnOf(header: seq<string>, name: string): (k: int)
    ensures -1 <= k < |header|
  {
    if header == [] then -1
    else if ColumnName(header[|header| - 1]) == name then |header| - 1
    else ColumnOf(header[..|header| - 1], name)
  }

  lemma {:induction false} ColumnOfIs(header: seq<string>, name: string)
    ensures var k := ColumnOf(header, name);
            && (k >= 0 ==> ColumnName(header[k]) == name)
            && (k < 0 ==> forall i :: 0 <= i < |header| ==> ColumnName(header[i]) != name)
  {
    if header != [] && ColumnName(header[|header| - 1]) != name {
      ColumnOfIs(header[..|header| - 1], name);
    }
  }

  lemma ColumnOfSnoc(header: seq<string>, cell: string, name: string)
    ensures ColumnOf(header + [cell], name) == if ColumnName(cell) == name then |header| else ColumnOf(header, name)
  {
    assert (header + [cell])[..|header|] == header;
  }

  /** A header names its column whatever white space surrounds the name, with or without a byte-order
      mark in front. */
  lemma ColumnNameIs(lead: string, name: string, trail: string)
    requires AllSpace(lead) && AllSpace(trail) && name != "" && Trimmed(name) && name[0] != BOM
    ensures ColumnName(lead + name + trail) == ColumnName([BOM] + (lead + name + trail)) == name
  {
    var cell := lead + name + trail;
    TrimAround(lead, name, trail);
    assert cell[0] == (if lead != "" then lead[0] else name[0]);
    assert ([BOM] + cell)[1..] == cell;
  }

  /** The closure `get`: short records read as empty cells. */
  function CellNamed(header: seq<string>, rec: seq<string>, name: string): string {
    var k := ColumnOf(header, name);
    if 0 <= k < |rec| then rec[k] else ""
  }

  function Cell(header: seq<string>, rec: seq<string>, c: Column): string { CellNamed(header, rec, c.Name()) }

  /** What an exporter writes in a column. */
  function FieldText(r: Row, c: Column): string {
    match c
    case TenantID => r.tenant
    case Seq => FormatInt(r.seqNo)
    case PrevHash => r.prevHash
    case RowHash => r.rowHash
    case ID => r.id
    case Actor => r.actor
    case EventType => r.eventType
    case TargetType => r.targetType
    case TargetID => r.targetID
    case Action => r.action
    case Payload => r.payload
  }

  /** The record reads as the row: its cells, with the seq cell parsed. */
  ghost predicate ReadsAs(parseInt: string -> Option<int>, header: seq<string>, rec: seq<string>, r: Row) {
    && (forall c: Column :: c != Seq ==> FieldText(r, c) == Cell(header, rec, c))
    && SeqOf(parseInt, header, rec) == Some(r.seqNo) && r.timestamp == "" && r.algo == ""
  }

  /** Which column a row's fields come from. */
  lemma ReadByName(parseInt: string -> Option<int>, header: seq<string>, rec: seq<string>, r: Row)
    requires ReadsAs(parseInt, header, rec, r)
    ensures r == Row(
      CellNamed(header, rec, "id"), CellNamed(header, rec, "actor"), CellNamed(header, rec, "event_type"),
      CellNamed(header, rec, "target_type"), CellNamed(header, rec, "target_id"), CellNamed(header, rec, "action"),
      CellNamed(header, rec, "payload"), CellNamed(header, rec, "tenant_id"), r.seqNo,
      CellNamed(header, rec, "prev_hash"), CellNamed(header, rec, "row_hash"), "", "")
    ensures parseInt(TrimSpace(CellNamed(header, rec, "seq"))) == Some(r.seqNo)
  {
    assert FieldText(r, ID) == Cell(header, rec, ID) && FieldText(r, Actor) == Cell(header, rec, Actor);
    assert FieldText(r, EventType) == Cell(header, rec, EventType);
    assert FieldText(r, TargetType) == Cell(header, rec, TargetType);
    assert FieldText(r, TargetID) == Cell(header, rec, TargetID) && FieldText(r, Action) == Cell(header, rec, Action);
    assert FieldText(r, Payload) == Cell(header, rec, Payload) && FieldText(r, TenantID) == Cell(header, rec, TenantID);
    assert FieldText(r, PrevHash) == Cell(header, rec, PrevHash) && FieldText(r, RowHash) == Cell(header, rec, RowHash);
  }

  function SeqOf(parseInt: string -> Option<int>, header: seq<string>, rec: seq<string>): Option<int> {
    parseInt(TrimSpace(Cell(header, rec, Seq)))
  }

  /** The header map: names to the last column that carries them. */
  method IndexHeader(header: seq<string>) returns (idx: map<string, nat>)
    ensures forall name :: name in idx <==> ColumnOf(header, name) >= 0
    ensures forall name :: name in idx ==> idx[name] == ColumnOf(header, name)
  {
    idx := map[];
    ghost var done: seq<string> := [];
    for i := 0 to |header|
      invariant done == header[..i]
      invariant forall name :: name in idx <==> ColumnOf(done, name) >= 0
      invariant forall name :: name in idx ==> idx[name] == ColumnOf(done, name)
    {
      forall name { ColumnOfSnoc(done, header[i], name); }
      TakeSnoc(header, i);
      done := done + [header[i]];
      idx := idx[ColumnName(header[i]) := i];
    }
    assert done == header;
  }

  /** The closure `get`, on the header map. */
  method Get(header: seq<string>, idx: map<string, nat>, rec: seq<string>, c: Column) returns (cell: string)
    requires c.Name() in idx && idx[c.Name()] == ColumnOf(header, c.Name())
    ensures cell == Cell(header, rec, c)
  {
    var i := idx[c.Name()];
    if i < |rec| { return rec[i]; }
    return "";
  }

  ghost predicate Indexed(header: seq<string>, idx: map<string, nat>) {
    forall c: Column :: c.Name() in idx && idx[c.Name()] == ColumnOf(header, c.Name())
  }

  /** One turn of the loop over the records. */
  method ReadRecord(parseInt: string -> Option<int>, header: seq<string>, idx: map<string, nat>, rec: seq<string>)
    returns (row: Option<Row>)
    requires Indexed(header, idx)
    ensures row.None? <==> SeqOf(parseInt, header, rec).None?
    ensures row.Some? ==> ReadsAs(parseInt, header, rec, row.value)
  {
    var text := Get(header, idx, rec, Seq);
    var n := parseInt(TrimSpace(text));
    if n.None? { return None; }
    var id := Get(header, idx, rec, ID);
    var actor := Get(header, idx, rec, Actor);
    var eventType := Get(header, idx, rec, EventType);
    var targetType := Get(header, idx, rec, TargetType);
    var targetID := Get(header, idx, rec, TargetID);
    var action := Get(header, idx, rec, Action);
    var payload := Get(header, idx, rec, Payload);
    var tenant := Get(header, idx, rec, TenantID);
    var prevHash := Get(header, idx, rec, PrevHash);
    var rowHash := Get(header, idx, rec, RowHash);
    var r := Row(id, actor, eventType, targetType, targetID, action, payload, tenant, n.value,
                 prevHash, rowHash, "", "");
    forall c: Column | c != Seq ensures FieldText(r, c) == Cell(header, rec, c) {
      match c
      case TenantID =>
      case PrevHash =>
      case RowHash =>
      case ID =>
      case Actor =>
      case EventType =>
      case TargetType =>
      case TargetID =>
      case Action =>
      case Payload =>
    }
    return Some(r);
  }

  ghost predicate HasColumns(header: seq<string>) {
    forall c: Column :: ColumnOf(header, c.Name()) >= 0
  }

  /** The first of the required columns, in their order, that the header does not have. */
  ghost predicate FirstMissing(header: seq<string>, c: Column) {
    exists k: nat :: k < |COLUMNS| && COLUMNS[k] == c && ColumnOf(header, c.Name()) < 0 && HasFirst(header, k)
  }

  /** Every row so far was read from the record beside it. */
  ghost predicate ReadFirst(parseInt: string -> Option<int>, header: seq<string>, recs: seq<seq<string>>,
                            rows: seq<Row>)
  {
    |rows| <= |recs| && forall k :: 0 <= k < |rows| ==> ReadsAs(parseInt, header, recs[k], rows[k])
  }

  ghost predicate ReadAll(parseInt: string -> Option<int>, header: seq<string>, recs: seq<seq<string>>,
                          rows: seq<Row>)
  {
    |rows| == |recs| && ReadFirst(parseInt, header, recs, rows)
  }

  lemma ColumnsAreAll(c: Column)
    ensures exists k :: 0 <= k < |COLUMNS| && COLUMNS[k] == c
  {
    assert COLUMNS[0] == TenantID && COLUMNS[1] == Seq && COLUMNS[2] == PrevHash && COLUMNS[3] == RowHash;
    assert COLUMNS[4] == ID && COLUMNS[5] == Actor && COLUMNS[6] == EventType && COLUMNS[7] == TargetType;
    assert COLUMNS[8] == TargetID && COLUMNS[9] == Action && COLUMNS[10] == Payload;
  }

  /** The first k required columns are there. */
  ghost predicate HasFirst(header: seq<string>, k: nat) {
    k <= |COLUMNS| && forall j :: 0 <= j < k ==> ColumnOf(header, COLUMNS[j].Name()) >= 0
  }

  lemma HasAll(header: seq<string>, k: nat)
    requires k == |COLUMNS| && HasFirst(header, k)
    ensures HasColumns(header)
  {
    forall c: Column ensures ColumnOf(header, c.Name()) >= 0 { ColumnsAreAll(c); }
  }

  lemma HasNext(header: seq<string>, k: nat, name: string)
    requires k < |COLUMNS| && HasFirst(header, k) && name == COLUMNS[k].Name()
    ensures ColumnOf(header, name) >= 0 ==> HasFirst(header, k + 1)
    ensures ColumnOf(header, name) < 0 ==> FirstMissing(header, COLUMNS[k]) && !HasColumns(header)
  {
  }

  /** The check that every required column is there. */
  method FindMissing(header: seq<string>, idx: map<string, nat>) returns (missing: Option<Column>)
    requires forall name :: name in idx <==> ColumnOf(header, name) >= 0
    ensures missing.None? <==> HasColumns(header)
    ensures missing.Some? ==> FirstMissing(header, missing.value)
  {
    for k := 0 to |COLUMNS|
      invariant HasFirst(header, k)
    {
      var name := COLUMNS[k].Name();
      HasNext(header, k, name);
      if name !in idx { return Some(COLUMNS[k]); }
    }
    HasAll(header, |COLUMNS|);
    return None;
  }

  /** parseExportCSV, on the records the CSV reader produced; `parseInt` is strconv.ParseInt. */
  method ParseExportCSV(parseInt: string -> Option<int>, records: seq<seq<string>>) returns (p: Parsed)
    ensures p.EmptyExport? <==> records == []
    ensures p.MissingColumn? <==> records != [] && !HasColumns(records[0])
    ensures p.MissingColumn? ==> FirstMissing(records[0], p.column)
    ensures p.BadSeq? ==> 2 <= p.line <= |records| && SeqOf(parseInt, records[0], records[1..][p.line - 2]).None?
    ensures p.BadSeq? ==> forall k :: 0 <= k < p.line - 2 ==> SeqOf(parseInt, records[0], records[1..][k]).Some?
    ensures p.Rows? ==> ReadAll(parseInt, records[0], records[1..], p.rows)
  {
    if |records| == 0 { return EmptyExport; }
    var header := records[0];
    var idx := IndexHeader(header);
    var missing := FindMissing(header, idx);
    if missing.Some? { return MissingColumn(missing.value); }
    var rows, bad := ReadRecords(parseInt, header, idx, records[1..]);
    if bad.Some? { return BadSeq(bad.value + 2); }
    return Rows(rows);
  }

  lemma ReadOneMore(parseInt: string -> Option<int>, header: seq<string>, recs: seq<seq<string>>, rows: seq<Row>,
                    r: Row)
    requires ReadFirst(parseInt, header, recs, rows) && |rows| < |recs|
    requires ReadsAs(parseInt, header, recs[|rows|], r)
    ensures ReadFirst(parseInt, header, recs, rows + [r])
  {
    forall k | 0 <= k < |rows| ensures ReadsAs(parseInt, header, recs[k], (rows + [r])[k]) {
      assert ReadsAs(parseInt, header, recs[k], rows[k]);
    }
  }

  /** The loop over the records after the header: the rows, or the first record without a seq. */
  method ReadRecords(parseInt: string -> Option<int>, header: seq<string>, idx: map<string, nat>,
                     recs: seq<seq<string>>)
    returns (rows: seq<Row>, bad: Option<nat>)
    requires Indexed(header, idx)
    ensures bad.None? ==> ReadAll(parseInt, header, recs, rows)
    ensures bad.Some? ==> bad.value < |recs| && SeqOf(parseInt, header, recs[bad.value]).None?
    ensures bad.Some? ==> forall k :: 0 <= k < bad.value ==> SeqOf(parseInt, header, recs[k]).Some?
  {
    rows := [];
    for i := 0 to |recs|
      invariant |rows| == i && ReadFirst(parseInt, header, recs, rows)
      invariant forall k :: 0 <= k < i ==> SeqOf(parseInt, header, recs[k]).Some?
    {
      var row := ReadRecord(parseInt, header, idx, recs[i]);
      if row.None? { return rows, Some(i); }
      ReadOneMore(parseInt, header, recs, rows, row.value);
      rows := rows + [row.value];
    }
    return rows, None;
  }

  // ---------------------------------------------------------------- writing and reading back

  /** A record that carries the row under a header, whatever the order of the columns and whatever
      the columns of other names hold. Rows of the export have no timestamp and no scheme. */
  ghost predicate Carries(header: seq<string>, rec: seq<string>, r: Row) {
    && |rec| == |header| && r.timestamp == "" && r.algo == ""
    && forall k, c: Column :: 0 <= k < |header| && ColumnName(header[k]) == c.Name() ==> rec[k] == FieldText(r, c)
  }

  lemma CellIsField(header: seq<string>, rec: seq<string>, r: Row, c: Column)
    requires Carries(header, rec, r) && ColumnOf(header, c.Name()) >= 0
    ensures Cell(header, rec, c) == FieldText(r, c)
  {
    ColumnOfIs(header, c.Name());
  }

  /** The number parser reads the sequence number of the row as it is written; strconv.ParseInt does
      for every number of 64 bits. */
  predicate ReadsNumber(parseInt: string -> Option<int>, r: Row) {
    parseInt(TrimSpace(FormatInt(r.seqNo))) == Some(r.seqNo)
  }

  /** A row is determined by what its record holds. */
  lemma RowRead(parseInt: string -> Option<int>, header: seq<string>, rec: seq<string>, r: Row, q: Row)
    requires Carries(header, rec, r) && HasColumns(header)
    requires ReadsNumber(parseInt, r)
    ensures SeqOf(parseInt, header, rec) == Some(r.seqNo)
    ensures ReadsAs(parseInt, header, rec, q) ==> q == r
  {
    forall c: Column ensures Cell(header, rec, c) == FieldText(r, c) { CellIsField(header, rec, r, c); }
    assert Cell(header, rec, Seq) == FormatInt(r.seqNo);
    if ReadsAs(parseInt, header, rec, q) {
      assert forall c: Column :: c != Seq ==> FieldText(q, c) == FieldText(r, c);
      SameRow(q, r);
    }
  }

  lemma SameRow(q: Row, r: Row)
    requires forall c: Column :: c != Seq ==> FieldText(q, c) == FieldText(r, c)
    requires q.seqNo == r.seqNo && q.timestamp == r.timestamp && q.algo == r.algo
    ensures q == r
  {
    assert FieldText(q, TenantID) == FieldText(r, TenantID) && FieldText(q, PrevHash) == FieldText(r, PrevHash);
    assert FieldText(q, RowHash) == FieldText(r, RowHash) && FieldText(q, ID) == FieldText(r, ID);
    assert FieldText(q, Actor) == FieldText(r, Actor) && FieldText(q, EventType) == FieldText(r, EventType);
    assert FieldText(q, TargetType) == FieldText(r, TargetType) && FieldText(q, TargetID) == FieldText(r, TargetID);
    assert FieldText(q, Action) == FieldText(r, Action) && FieldText(q, Payload) == FieldText(r, Payload);
  }

  /** Reading back an export: under any header that has the required columns somewhere, in any
      order, repeated or among others, the rows that were written come back unchanged. */
  lemma ReadBack(parseInt: string -> Option<int>, header: seq<string>, recs: seq<seq<string>>, rows: seq<Row>,
                 read: seq<Row>)
    requires HasColumns(header) && |recs| == |rows|
    requires forall k :: 0 <= k < |rows| ==> Carries(header, recs[k], rows[k]) && ReadsNumber(parseInt, rows[k])
    ensures forall k :: 0 <= k < |rows| ==> SeqOf(parseInt, header, recs[k]).Some?
    ensures ReadAll(parseInt, header, recs, read) ==> read == rows
  {
    forall k | 0 <= k < |rows|
      ensures SeqOf(parseInt, header, recs[k]).Some?
      ensures k < |read| && ReadsAs(parseInt, header, recs[k], read[k]) ==> read[k] == rows[k]
    {
      RowRead(parseInt, header, recs[k], rows[k], if k < |read| then read[k] else rows[k]);
    }
  }

  /** The same law on the method: an export written that way parses to exactly its rows. */
  method ParseWritten(parseInt: string -> Option<int>, header: seq<string>, recs: seq<seq<string>>,
                      ghost rows: seq<Row>) returns (p: Parsed)
    requires HasColumns(header) && |recs| == |rows|
    requires forall k :: 0 <= k < |rows| ==> Carries(header, recs[k], rows[k]) && ReadsNumber(parseInt, rows[k])
    ensures p == Rows(rows)
  {
    p := ParseExportCSV(parseInt, [header] + recs);
    assert ([header] + recs)[1..] == recs;
    ReadBack(parseInt, header, recs, rows, if p.Rows? then p.rows else []);
  }
}
