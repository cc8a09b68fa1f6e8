/**
 * groom/groom/archive.py, the reading side: a run's rows a page at a time, and the three signals merged by time.
 *
 * A table is the set of one run's archivable rows of one kind. The store's paging query is a function with the
 * contract the query has: rows strictly after the cursor, ascending, cut at the page size.
 */
module ArchiveStream {

  datatype Kind = SpanKind | LogKind | MetricKind

  /** `hi` is the latest time the row speaks of: the end of a span, the time itself otherwise. */
  datatype Row = Row(kind: Kind, ts: real, rowid: nat, hi: real, archivable: bool)

  datatype Cursor = Cursor(ts: real, rowid: nat)

  const ORIGIN := Cursor(0.0, 0)

  function KeyOf(row: Row): Cursor {
    Cursor(row.ts, row.rowid)
  }

  predicate Less(a: Cursor, b: Cursor) {
    a.ts < b.ts || (a.ts == b.ts && a.rowid < b.rowid)
  }

  predicate Ascending(rows: seq<Row>) {
    forall i, j :: 0 <= i < j < |rows| ==> Less(KeyOf(rows[i]), KeyOf(rows[j]))
  }

  /** `archive_page`: the first `limit` rows after the cursor in (ts, rowid) order. */
  ghost predicate IsPage(table: set<Row>, after: Cursor, limit: nat, page: seq<Row>) {
    && |page| <= limit
    && Ascending(page)
    && (forall row :: row in page ==> row in table && Less(after, KeyOf(row)))
    && (forall row :: row in table && Less(after, KeyOf(row)) && row !in page ==>
          |page| == limit && (page != [] ==> Less(KeyOf(page[|page| - 1]), KeyOf(row))))
  }

  type Pager = Cursor -> seq<Row>

  ghost predicate Pages(pager: Pager, table: set<Row>, limit: nat) {
    forall after :: IsPage(table, after, limit, pager(after))
  }

  /** No two rows of one table share a key. */
  ghost predicate DistinctKeys(table: set<Row>) {
    forall a, b :: a in table && b in table && KeyOf(a) == KeyOf(b) ==> a == b
  }

  ghost function Beyond(table: set<Row>, after: Cursor): set<Row> {
    set row | row in table && Less(after, KeyOf(row))
  }

  /** What `_stream` has yielded once it has read up to `cursor`. */
  ghost predicate StreamedTo(table: set<Row>, cursor: Cursor, rows: seq<Row>) {
    && Ascending(rows)
    && (forall row :: row in rows <==> row in table && Less(ORIGIN, KeyOf(row)) && !Less(cursor, KeyOf(row)))
    && (if rows == [] then cursor == ORIGIN else cursor == KeyOf(rows[|rows| - 1]))
  }

  lemma PageExtendsTheStream(table: set<Row>, cursor: Cursor, rows: seq<Row>, limit: nat, page: seq<Row>)
    requires DistinctKeys(table) && StreamedTo(table, cursor, rows) && IsPage(table, cursor, limit, page) && page != []
    ensures var next := KeyOf(page[|page| - 1]);
      StreamedTo(table, next, rows + page) && Beyond(table, next) < Beyond(table, cursor)
  {
    var next := KeyOf(page[|page| - 1]);
    var last := page[|page| - 1];
    assert last in page;
    assert Less(cursor, next);
    forall i, j | 0 <= i < j < |rows + page| ensures Less(KeyOf((rows + page)[i]), KeyOf((rows + page)[j])) {
      if i < |rows| <= j {
        assert rows[i] in rows && page[j - |rows|] in page;
      }
    }
    forall row | row in table && Less(ORIGIN, KeyOf(row)) && row !in rows + page ensures Less(next, KeyOf(row)) {
      assert row !in page && Less(cursor, KeyOf(row));
    }
    forall row | row in page ensures !Less(next, KeyOf(row)) {
      var i :| 0 <= i < |page| && page[i] == row;
      assert i == |page| - 1 || Less(KeyOf(page[i]), next);
    }
    assert last in Beyond(table, cursor) && last !in Beyond(table, next);
  }

  /** `_stream`: every row after the origin is yielded once, in (ts, rowid) order, whatever the page size. */
  method Stream(pager: Pager, ghost table: set<Row>, ghost limit: nat) returns (rows: seq<Row>)
    requires limit > 0 && Pages(pager, table, limit) && DistinctKeys(table)
    ensures Ascending(rows)
    ensures forall row :: row in rows <==> row in table && Less(ORIGIN, KeyOf(row))
  {
    rows := [];
    var cursor := ORIGIN;
    while true
      invariant StreamedTo(table, cursor, rows)
      decreases Beyond(table, cursor)
    {
      var page := pager(cursor);
      assert IsPage(table, cursor, limit, page);
      if page == [] {
        return;
      }
      PageExtendsTheStream(table, cursor, rows, limit, page);
      rows := rows + page;
      cursor := KeyOf(page[|page| - 1]);
    }
  }

  // ---- the merge ----

  predicate NonDecreasing(rows: seq<Row>) {
    forall i, j :: 0 <= i < j < |rows| ==> !Less(KeyOf(rows[j]), KeyOf(rows[i]))
  }

  /** Two streams merged by key, the left one first on a tie. */
  function Merge(a: seq<Row>, b: seq<Row>): seq<Row> {
    if a == [] then b
    else if b == [] then a
    else if Less(KeyOf(b[0]), KeyOf(a[0])) then [b[0]] + Merge(a, b[1..])
    else [a[0]] + Merge(a[1..], b)
  }

  /** `records`: spans, logs and metrics, merged in (ts, rowid) order. */
  function Records(spans: seq<Row>, logs: seq<Row>, metrics: seq<Row>): seq<Row> {
    Merge(Merge(spans, logs), metrics)
  }

  function OfKind(rows: seq<Row>, kind: Kind): seq<Row> {
    if rows == [] then []
    else if rows[0].kind == kind then [rows[0]] + OfKind(rows[1..], kind)
    else OfKind(rows[1..], kind)
  }

  predicate AllOfKind(rows: seq<Row>, kind: Kind) {
    forall i :: 0 <= i < |rows| ==> rows[i].kind == kind
  }

  lemma MultisetOfHead(rows: seq<Row>)
    requires rows != []
    ensures multiset(rows) == multiset{rows[0]} + multiset(rows[1..])
  {
    assert rows == [rows[0]] + rows[1..];
  }

  lemma {:induction false} MergeHolds(a: seq<Row>, b: seq<Row>)
    ensures multiset(Merge(a, b)) == multiset(a) + multiset(b)
    decreases |a| + |b|
  {
    if a != [] && b != [] {
      if Less(KeyOf(b[0]), KeyOf(a[0])) {
        MergeHolds(a, b[1..]);
        MultisetOfHead(b);
      } else {
        MergeHolds(a[1..], b);
        MultisetOfHead(a);
      }
    }
  }

  lemma {:induction false} MergeIsOrdered(a: seq<Row>, b: seq<Row>)
    requires NonDecreasing(a) && NonDecreasing(b)
    ensures NonDecreasing(Merge(a, b))
    decreases |a| + |b|
  {
    if a != [] && b != [] {
      if Less(KeyOf(b[0]), KeyOf(a[0])) {
        MergeIsOrdered(a, b[1..]);
        PrependSmallest(b[0], a, b[1..]);
      } else {
        MergeIsOrdered(a[1..], b);
        PrependSmallest(a[0], a[1..], b);
      }
    }
  }

  lemma PrependSmallest(row: Row, a: seq<Row>, b: seq<Row>)
    requires NonDecreasing(Merge(a, b))
    requires forall i :: 0 <= i < |a| ==> !Less(KeyOf(a[i]), KeyOf(row))
    requires forall i :: 0 <= i < |b| ==> !Less(KeyOf(b[i]), KeyOf(row))
    ensures NonDecreasing([row] + Merge(a, b))
  {
    var merged := Merge(a, b);
    MergeHolds(a, b);
    forall j | 0 <= j < |merged| ensures !Less(KeyOf(merged[j]), KeyOf(row)) {
      assert merged[j] in multiset(merged);
      assert merged[j] in a || merged[j] in b;
    }
  }

  lemma {:induction false} MergeKeepsKinds(a: seq<Row>, b: seq<Row>, kind: Kind)
    requires OfKind(a, kind) == [] || OfKind(b, kind) == []
    ensures OfKind(Merge(a, b), kind) == OfKind(a, kind) + OfKind(b, kind)
    decreases |a| + |b|
  {
    if a != [] && b != [] {
      if Less(KeyOf(b[0]), KeyOf(a[0])) {
        MergeKeepsKinds(a, b[1..], kind);
      } else {
        MergeKeepsKinds(a[1..], b, kind);
      }
    }
  }

  lemma {:induction false} KindOfOneKind(rows: seq<Row>, kind: Kind, other: Kind)
    requires AllOfKind(rows, kind)
    ensures OfKind(rows, other) == if other == kind then rows else []
  {
    if rows != [] {
      assert rows[0].kind == kind;
      assert forall i :: 0 <= i < |rows[1..]| ==> rows[1..][i] == rows[i + 1];
      KindOfOneKind(rows[1..], kind, other);
    }
  }

  /**
   * The merge is exact: it is in (ts, rowid) order, it holds each stream's rows once, and each kind read back on its
   * own is that kind's stream.
   */
  lemma RecordsAreExact(spans: seq<Row>, logs: seq<Row>, metrics: seq<Row>)
    requires AllOfKind(spans, SpanKind) && AllOfKind(logs, LogKind) && AllOfKind(metrics, MetricKind)
    requires Ascending(spans) && Ascending(logs) && Ascending(metrics)
    ensures var records := Records(spans, logs, metrics);
      && NonDecreasing(records)
      && multiset(records) == multiset(spans) + multiset(logs) + multiset(metrics)
      && OfKind(records, SpanKind) == spans && OfKind(records, LogKind) == logs && OfKind(records, MetricKind) == metrics
  {
    hide Merge;
    MergeIsOrdered(spans, logs);
    MergeIsOrdered(Merge(spans, logs), metrics);
    MergeHolds(spans, logs);
    MergeHolds(Merge(spans, logs), metrics);
    RecordsOfKind(spans, logs, metrics, SpanKind);
    RecordsOfKind(spans, logs, metrics, LogKind);
    RecordsOfKind(spans, logs, metrics, MetricKind);
  }

  lemma RecordsOfKind(spans: seq<Row>, logs: seq<Row>, metrics: seq<Row>, kind: Kind)
    requires AllOfKind(spans, SpanKind) && AllOfKind(logs, LogKind) && AllOfKind(metrics, MetricKind)
    ensures OfKind(Records(spans, logs, metrics), kind)
         == match kind case SpanKind => spans case LogKind => logs case MetricKind => metrics
  {
    KindOfOneKind(spans, SpanKind, kind);
    KindOfOneKind(logs, LogKind, kind);
    KindOfOneKind(metrics, MetricKind, kind);
    MergeKeepsKinds(spans, logs, kind);
    MergeKeepsKinds(Merge(spans, logs), metrics, kind);
  }

  /** The records come by time, and of one time by rowid. */
  lemma RecordsAreInTimeOrder(spans: seq<Row>, logs: seq<Row>, metrics: seq<Row>, i: nat, j: nat)
    requires AllOfKind(spans, SpanKind) && AllOfKind(logs, LogKind) && AllOfKind(metrics, MetricKind)
    requires Ascending(spans) && Ascending(logs) && Ascending(metrics)
    requires i < j < |Records(spans, logs, metrics)|
    ensures var a, b := Records(spans, logs, metrics)[i], Records(spans, logs, metrics)[j];
      a.ts < b.ts || (a.ts == b.ts && a.rowid <= b.rowid)
  {
    RecordsAreExact(spans, logs, metrics);
    hide Merge, Records;
  }

  /** What one kind's stream yields comes by time and rowid, no two rows alike, and none from before time zero. */
  lemma StreamIsInTimeOrder(table: set<Row>, cursor: Cursor, rows: seq<Row>, i: nat, j: nat)
    requires StreamedTo(table, cursor, rows) && i < j < |rows|
    ensures var a, b := rows[i], rows[j];
      && (a.ts < b.ts || (a.ts == b.ts && a.rowid < b.rowid))
      && (a.ts > 0.0 || (a.ts == 0.0 && a.rowid > 0))
  {
    assert rows[i] in rows;
  }
}
