/**
 * groom/groom/archive.py, the writing side: freezing a run into its own directory and dropping its rows, with a crash
 * between any two steps.
 *
 * The world is one sweeper, the store it empties, the live transcript directories and the archives. File contents are
 * values; a rename and a replace are single steps, a delete goes chunk by chunk.
 */
module Archive {
  import opened Collections
  import opened Wrappers
  import opened ArchiveStream

  type RunId = string

  /** `RunBounds`: what the sweep knows of a run, and what an archive's manifest line repeats. */
  datatype Bounds = Bounds(run: RunId, maxTs: real, spans: nat, logs: nat, metrics: nat)

  datatype Telemetry = Telemetry(manifest: Bounds, rows: set<Row>)

  /** An archive directory's name: the run's own, or the one derived from its id and `max_ts` by a hash. */
  datatype Name = Own(run: RunId) | Derived(run: RunId, maxTs: real)

  /** A directory under archives/, with its telemetry.jsonl if it has one. */
  type Dirs = map<Name, Option<Telemetry>>

  // ---- bounds ----

  function RowsOfKind(rows: set<Row>, kind: Kind): set<Row> {
    set row | row in rows && row.kind == kind
  }

  function Archivable(rows: set<Row>): set<Row> {
    set row | row in rows && row.archivable
  }

  /** `run_bounds`: the latest time any row speaks of, and the archivable rows counted by kind. */
  ghost predicate IsBounds(b: Bounds, rows: set<Row>) {
    && (exists row :: row in rows && row.hi == b.maxTs)
    && (forall row :: row in rows ==> row.hi <= b.maxTs)
    && Counts(b, Archivable(rows))
  }

  predicate Counts(b: Bounds, rows: set<Row>) {
    && b.spans == |RowsOfKind(rows, SpanKind)|
    && b.logs == |RowsOfKind(rows, LogKind)|
    && b.metrics == |RowsOfKind(rows, MetricKind)|
  }

  /** The same counts over fewer rows are counts of the same rows. */
  lemma EqualCountsMeanEqualRows(b: Bounds, some: set<Row>, all: set<Row>)
    requires some <= all && Counts(b, some) && Counts(b, all)
    ensures some == all
  {
    forall row | row in all ensures row in some {
      var part, whole := RowsOfKind(some, row.kind), RowsOfKind(all, row.kind);
      assert part <= whole && |part| == |whole|;
      if row !in part {
        SubsetIsSmaller(part, whole, row);
      }
    }
  }

  lemma SubsetIsSmaller(part: set<Row>, whole: set<Row>, row: Row)
    requires part <= whole && row in whole && row !in part
    ensures |part| < |whole|
  {
    assert part <= whole - {row};
    SubsetIsNoLarger(part, whole - {row});
  }

  // ---- _matches, _destination ----

  /** Whether a directory holds exactly what the store still holds; one without a manifest holds nothing. */
  predicate Matches(found: Option<Telemetry>, b: Bounds) {
    match found
    case None => b.maxTs == 0.0 && b.spans == 0 && b.logs == 0 && b.metrics == 0
    case Some(telemetry) =>
      var m := telemetry.manifest;
      m.maxTs == b.maxTs && m.spans == b.spans && m.logs == b.logs && m.metrics == b.metrics
  }

  datatype Destination = MoveTo(name: Name) | AlreadyThere | Taken

  function DestinationFrom(archives: Dirs, candidates: seq<Name>, b: Bounds): Destination {
    if candidates == [] then Taken
    else if candidates[0] !in archives then MoveTo(candidates[0])
    else if Matches(archives[candidates[0]], b) then AlreadyThere
    else DestinationFrom(archives, candidates[1..], b)
  }

  function Candidates(b: Bounds): seq<Name> {
    [Own(b.run), Derived(b.run, b.maxTs)]
  }

  function DestinationOf(archives: Dirs, b: Bounds): Destination {
    DestinationFrom(archives, Candidates(b), b)
  }

  method FindDestination(archives: Dirs, b: Bounds) returns (destination: Destination)
    ensures destination == DestinationOf(archives, b)
  {
    var candidates := Candidates(b);
    for i := 0 to |candidates|
      invariant DestinationFrom(archives, candidates[i..], b) == DestinationOf(archives, b)
    {
      assert candidates[i..][1..] == candidates[i + 1..];
      if candidates[i] !in archives {
        return MoveTo(candidates[i]);
      }
      if Matches(archives[candidates[i]], b) {
        return AlreadyThere;
      }
    }
    destination := Taken;
  }

  lemma {:induction false} DestinationFromIsExact(archives: Dirs, candidates: seq<Name>, b: Bounds)
    ensures match DestinationFrom(archives, candidates, b)
      case MoveTo(name) => name in candidates && name !in archives
      case AlreadyThere => exists name :: name in candidates && name in archives && Matches(archives[name], b)
      case Taken => forall name :: name in candidates ==> name in archives && !Matches(archives[name], b)
  {
    if candidates != [] {
      DestinationFromIsExact(archives, candidates[1..], b);
      assert candidates[0] in candidates;
    }
  }

  /** A move goes to a free name of this run; a resume has an archive of this run whose counts and max_ts match. */
  lemma DestinationIsExact(archives: Dirs, b: Bounds)
    ensures match DestinationOf(archives, b)
      case MoveTo(name) => name.run == b.run && name !in archives
      case AlreadyThere => exists name :: name in archives && name.run == b.run && Matches(archives[name], b)
      case Taken => forall name :: name in Candidates(b) ==> name in archives && !Matches(archives[name], b)
  {
    hide DestinationFrom;
    DestinationFromIsExact(archives, Candidates(b), b);
    assert forall name :: name in Candidates(b) ==> name.run == b.run;
  }

  /** What is found at a name is the archive of these bounds: the same end and the same counts, nothing counting as nothing. */
  predicate IsArchiveOf(found: Option<Telemetry>, b: Bounds) {
    match found
    case None => b.maxTs == 0.0 && b.spans + b.logs + b.metrics == 0
    case Some(telemetry) => telemetry.manifest.(run := b.run) == b
  }

  /**
   * Where a run goes: under its own name if that is free, under the derived one if that is and the own name holds another
   * archive; it is there already if the first of the two names that is not free holds it, or the second does; and with
   * both names held by others there is no place.
   */
  lemma DestinationExactlyWhen(archives: Dirs, b: Bounds)
    ensures var own, derived, destination := Own(b.run), Derived(b.run, b.maxTs), DestinationOf(archives, b);
      && (destination == MoveTo(own) <==> own !in archives)
      && (destination == MoveTo(derived) <==> own in archives && !IsArchiveOf(archives[own], b) && derived !in archives)
      && (destination == AlreadyThere <==>
            own in archives
            && (IsArchiveOf(archives[own], b) || (derived in archives && IsArchiveOf(archives[derived], b))))
      && (destination == Taken <==>
            own in archives && !IsArchiveOf(archives[own], b) && derived in archives && !IsArchiveOf(archives[derived], b))
  {
    var own, derived := Own(b.run), Derived(b.run, b.maxTs);
    var rest := [derived];
    assert rest[1..] == [] && Candidates(b)[1..] == rest && Candidates(b)[0] == own;
    assert DestinationFrom(archives, [], b) == Taken;
    assert DestinationFrom(archives, rest, b)
        == if derived !in archives then MoveTo(derived) else if Matches(archives[derived], b) then AlreadyThere else Taken;
    assert DestinationOf(archives, b)
        == if own !in archives then MoveTo(own)
           else if Matches(archives[own], b) then AlreadyThere
           else DestinationFrom(archives, rest, b);
    assert own in archives ==> (Matches(archives[own], b) <==> IsArchiveOf(archives[own], b));
    assert derived in archives ==> (Matches(archives[derived], b) <==> IsArchiveOf(archives[derived], b));
  }

  // ---- write_telemetry ----

  /** Count the records by kind as they are written; the file is published only if the counts are the manifest's. */
  method WriteTelemetry(b: Bounds, records: seq<Row>) returns (published: Option<Telemetry>)
    ensures published.Some? <==>
      b.spans == |OfKind(records, SpanKind)| && b.logs == |OfKind(records, LogKind)| && b.metrics == |OfKind(records, MetricKind)|
    ensures published.Some? ==> published.value == Telemetry(b, set row | row in records)
  {
    var spans, logs, metrics := 0, 0, 0;
    for i := 0 to |records|
      invariant spans + |OfKind(records[i..], SpanKind)| == |OfKind(records, SpanKind)|
      invariant logs + |OfKind(records[i..], LogKind)| == |OfKind(records, LogKind)|
      invariant metrics + |OfKind(records[i..], MetricKind)| == |OfKind(records, MetricKind)|
    {
      assert records[i..][1..] == records[i + 1..];
      match records[i].kind
      case SpanKind => spans := spans + 1;
      case LogKind => logs := logs + 1;
      case MetricKind => metrics := metrics + 1;
    }
    if spans == b.spans && logs == b.logs && metrics == b.metrics {
      published := Some(Telemetry(b, set row | row in records));
    } else {
      published := None;
    }
  }

  /** The rows a write reads: the archivable ones after the stream's origin. */
  function Written(rows: set<Row>): set<Row> {
    set row | row in rows && row.archivable && Less(ORIGIN, KeyOf(row))
  }

  /** The stream `_stream` yields for one kind of a run's rows. */
  ghost predicate StreamOf(rows: set<Row>, kind: Kind, stream: seq<Row>) {
    && Ascending(stream)
    && forall row :: row in stream <==> row in RowsOfKind(Written(rows), kind)
  }

  lemma {:induction false} AscendingHasNoRepeats(stream: seq<Row>)
    requires Ascending(stream)
    ensures |set row | row in stream| == |stream|
  {
    if stream != [] {
      var rest := stream[1..];
      AscendingHasNoRepeats(rest);
      assert stream[0] !in rest;
      assert (set row | row in stream) == {stream[0]} + set row | row in rest;
    }
  }

  /** The three merged streams are what a write needs: the rows to archive, each once, counted by kind. */
  lemma RecordsAreTheRowsToWrite(rows: set<Row>, spans: seq<Row>, logs: seq<Row>, metrics: seq<Row>)
    requires StreamOf(rows, SpanKind, spans) && StreamOf(rows, LogKind, logs) && StreamOf(rows, MetricKind, metrics)
    ensures var records := Records(spans, logs, metrics);
      && (set row | row in records) == Written(rows)
      && forall kind :: |OfKind(records, kind)| == |RowsOfKind(Written(rows), kind)|
  {
    hide Merge, Less;
    assert AllOfKind(spans, SpanKind) && AllOfKind(logs, LogKind) && AllOfKind(metrics, MetricKind) by {
      assert forall i :: 0 <= i < |spans| ==> spans[i] in spans;
      assert forall i :: 0 <= i < |logs| ==> logs[i] in logs;
      assert forall i :: 0 <= i < |metrics| ==> metrics[i] in metrics;
    }
    RecordsAreExact(spans, logs, metrics);
    var records := Records(spans, logs, metrics);
    forall row ensures row in records <==> row in Written(rows) {
      assert row in records <==> row in multiset(records);
      assert row in multiset(records) <==> row in spans || row in logs || row in metrics;
    }
    AscendingHasNoRepeats(spans);
    AscendingHasNoRepeats(logs);
    AscendingHasNoRepeats(metrics);
    assert (set row | row in spans) == RowsOfKind(Written(rows), SpanKind);
    assert (set row | row in logs) == RowsOfKind(Written(rows), LogKind);
    assert (set row | row in metrics) == RowsOfKind(Written(rows), MetricKind);
  }

  // ---- the world and its steps ----

  /** `present` are the rows stored when the write began: it reads all of those, and may read later ones. */
  datatype Sweeper =
    | Idle
    | Decided(b: Bounds, destination: Name, present: set<Row>)
    | Published(b: Bounds, destination: Name)
    | Deleting(run: RunId)

  /**
   * `known` are the bounds the pass computed at its start. `ever` and `measured` are history: every row a run was ever
   * given, and the rows its bounds were computed from.
   */
  datatype World = World(
    store: map<RunId, set<Row>>, live: map<RunId, Telemetry>, archives: Dirs,
    known: map<RunId, Bounds>, sweeper: Sweeper, ever: map<RunId, set<Row>>, measured: map<RunId, set<Row>>)
  {
    function Rows(run: RunId): set<Row> {
      if run in store then store[run] else {}
    }

    function Ever(run: RunId): set<Row> {
      if run in ever then ever[run] else {}
    }

    function Measured(run: RunId): set<Row> {
      if run in measured then measured[run] else {}
    }
  }

  datatype Step =
    | Ingest(run: RunId, rows: set<Row>)
    | Measure(b: Bounds)
    | Begin(run: RunId)
    | Publish(written: set<Row>)
    | Rename
    | DeleteChunk(chunk: set<Row>)
    | Done
    | Crash

  /** A row ingested is a new one, and no time is negative and no rowid zero. */
  ghost predicate Enabled(w: World, step: Step) {
    match step
    case Ingest(run, rows) => rows !! w.Ever(run) && forall row :: row in rows ==> Less(ORIGIN, KeyOf(row))
    case Measure(b) => w.sweeper.Idle? && IsBounds(b, w.Rows(b.run))
    case Begin(run) => w.sweeper.Idle? && run in w.known
    case Publish(written) =>
      w.sweeper.Decided? && Written(w.sweeper.present) <= written <= Written(w.Rows(w.sweeper.b.run))
    case Rename => w.sweeper.Published? && w.sweeper.b.run in w.live
    case DeleteChunk(chunk) => w.sweeper.Deleting? && chunk <= w.Rows(w.sweeper.run)
    case Done => w.sweeper.Deleting?
    case Crash => true
  }

  function Next(w: World, step: Step): World
    requires Enabled(w, step)
  {
    match step
    case Ingest(run, rows) =>
      w.(store := w.store[run := w.Rows(run) + rows], ever := w.ever[run := w.Ever(run) + rows])
    case Measure(b) => w.(known := w.known[b.run := b], measured := w.measured[b.run := w.Rows(b.run)])
    case Begin(run) =>
      (match DestinationOf(w.archives, w.known[run])
       case MoveTo(name) => w.(sweeper := Decided(w.known[run], name, w.Rows(run)))
       case AlreadyThere => w.(sweeper := Deleting(run))
       case Taken => w.(known := w.known - {run}))
    case Publish(written) =>
      var b := w.sweeper.b;
      if Counts(b, written) then
        w.(live := w.live[b.run := Telemetry(b, written)], sweeper := Published(b, w.sweeper.destination))
      else w.(sweeper := Idle, known := w.known - {b.run})
    case Rename =>
      var run := w.sweeper.b.run;
      w.(archives := w.archives[w.sweeper.destination := Some(w.live[run])], live := w.live - {run}, sweeper := Deleting(run))
    case DeleteChunk(chunk) => w.(store := w.store[w.sweeper.run := w.Rows(w.sweeper.run) - chunk])
    case Done => w.(sweeper := Idle, known := w.known - {w.sweeper.run})
    case Crash => w.(sweeper := Idle, known := map[])
  }

  // ---- what a run of the world must not do ----

  /** The run's telemetry is written, and all that is stored of it is to be deleted. */
  predicate Committed(w: World, run: RunId) {
    match w.sweeper
    case Published(b, _) => b.run == run
    case Deleting(deleted) => deleted == run
    case _ => false
  }

  predicate LaterThanArchives(w: World, run: RunId, row: Row) {
    forall name :: name in w.archives && name.run == run && w.archives[name].Some? ==>
      w.archives[name].value.manifest.maxTs < row.hi
  }

  /** Counting the stored rows again would give the counts of the bounds. */
  predicate Recounts(w: World, b: Bounds) {
    Counts(b, Archivable(w.Rows(b.run)))
  }

  /**
   * No archivable row arrives for a run between its publishing and its last delete; and when a resume begins or a write
   * is published, the stored rows still have the counts they were measured with.
   */
  predicate Undisturbed(w: World, step: Step) {
    match step
    case Ingest(run, rows) => forall row :: row in rows && row.archivable ==> !Committed(w, run)
    case Begin(run) =>
      run in w.known && DestinationOf(w.archives, w.known[run]).AlreadyThere? ==> Recounts(w, w.known[run])
    case Publish(written) => w.sweeper.Decided? && Counts(w.sweeper.b, written) ==> Recounts(w, w.sweeper.b)
    case _ => true
  }

  /** No archivable row is dated within an archive its run already has. */
  predicate WellDated(w: World, step: Step) {
    step.Ingest? ==> forall row :: row in step.rows && row.archivable ==> LaterThanArchives(w, step.run, row)
  }

  // ---- the safety invariant ----

  /** The row is in some archive of its run. */
  ghost predicate Archived(archives: Dirs, run: RunId, row: Row) {
    exists name :: name in archives && name.run == run && archives[name].Some? && row in archives[name].value.rows
  }

  ghost predicate Kept(w: World, run: RunId) {
    forall row :: row in w.Ever(run) && row.archivable ==> row in w.Rows(run) || Archived(w.archives, run, row)
  }

  /** The manifest line says what the file holds. */
  predicate IsTrue(telemetry: Telemetry) {
    && Counts(telemetry.manifest, telemetry.rows)
    && forall row :: row in telemetry.rows ==> row.hi <= telemetry.manifest.maxTs
  }

  ghost predicate RowsOk(w: World, run: RunId) {
    w.Rows(run) <= w.Ever(run) && forall row :: row in w.Ever(run) ==> Less(ORIGIN, KeyOf(row))
  }

  /** An archive holds what its manifest says, all of it of its run. */
  ghost predicate ArchiveOk(w: World, name: Name)
    requires name in w.archives
  {
    var found := w.archives[name];
    found.Some? ==> IsTrue(found.value) && found.value.rows <= w.Ever(name.run)
  }

  /** The bounds are those of the measured rows, which are all still stored. */
  ghost predicate IsMeasured(w: World, b: Bounds) {
    w.Measured(b.run) <= w.Rows(b.run) && IsBounds(b, w.Measured(b.run))
  }

  ghost predicate KnownOk(w: World, run: RunId) {
    run in w.known ==> w.known[run].run == run && (w.sweeper == Deleting(run) || IsMeasured(w, w.known[run]))
  }

  predicate Takes(w: World, b: Bounds, destination: Name) {
    b.run in w.known && w.known[b.run] == b && destination.run == b.run && destination !in w.archives
  }

  ghost predicate SweeperOk(w: World) {
    match w.sweeper
    case Idle => true
    case Decided(b, destination, present) =>
      Takes(w, b, destination) && w.Measured(b.run) <= present <= w.Rows(b.run)
    case Published(b, destination) =>
      && Takes(w, b, destination) && b.run in w.live && w.live[b.run].manifest == b
      && IsTrue(w.live[b.run]) && w.live[b.run].rows <= w.Ever(b.run)
    case Deleting(run) => run in w.known
  }

  /** What every run keeps, whatever rows arrive when. */
  ghost predicate Books(w: World) {
    && (forall run :: RowsOk(w, run) && KnownOk(w, run))
    && (forall name :: name in w.archives ==> ArchiveOk(w, name))
    && SweeperOk(w)
  }

  /** An archive holds every archivable row still stored up to its `max_ts`. */
  ghost predicate Covers(w: World, name: Name)
    requires name in w.archives
  {
    var found := w.archives[name];
    found.Some? ==>
      forall row :: row in w.Rows(name.run) && row.archivable ==> row in found.value.rows || row.hi > found.value.manifest.maxTs
  }

  /** No archivable row that came after the measuring is archived. */
  ghost predicate NoneLateArchived(w: World, run: RunId) {
    forall row :: row in w.Rows(run) - w.Measured(run) && row.archivable ==> !Archived(w.archives, run, row)
  }

  ghost predicate StoredIsArchived(w: World, run: RunId) {
    forall row :: row in w.Rows(run) && row.archivable ==> Archived(w.archives, run, row)
  }

  /** What a run keeps while it is undisturbed. */
  ghost predicate Safe(w: World) {
    && (forall run :: Kept(w, run))
    && (forall name :: name in w.archives ==> Covers(w, name))
    && (forall run :: run in w.known && w.sweeper != Deleting(run) ==> NoneLateArchived(w, run))
    && match w.sweeper
       case Published(b, _) => b.run in w.live && w.live[b.run].rows == Archivable(w.Rows(b.run))
       case Deleting(run) => StoredIsArchived(w, run)
       case _ => true
  }

  ghost predicate Inv(w: World) {
    Books(w) && Safe(w)
  }

  // ---- what the count check is for ----

  lemma WrittenIsArchivable(w: World, run: RunId, some: set<Row>)
    requires RowsOk(w, run) && some <= w.Rows(run)
    ensures Written(some) == Archivable(some)
  {
  }

  /** Stored rows count as the measured ones exactly when no archivable row came since. */
  lemma RecountsExactlyWhen(w: World, b: Bounds)
    requires IsMeasured(w, b)
    ensures Recounts(w, b) <==> Archivable(w.Rows(b.run)) == Archivable(w.Measured(b.run))
  {
    if Recounts(w, b) {
      EqualCountsMeanEqualRows(b, Archivable(w.Measured(b.run)), Archivable(w.Rows(b.run)));
    }
  }

  /**
   * A write passes its count check exactly when it wrote the measured rows; so one that began after another archivable
   * row had arrived never passes it.
   */
  lemma CheckPassesExactlyWhen(w: World, written: set<Row>)
    requires Books(w) && Enabled(w, Publish(written))
    ensures var b := w.sweeper.b;
      && (Next(w, Publish(written)).sweeper.Published? <==> written == Archivable(w.Measured(b.run)))
      && (Next(w, Publish(written)).sweeper.Published? ==> Archivable(w.sweeper.present) == Archivable(w.Measured(b.run)))
  {
    hide Counts, ArchiveOk;
    var b, present := w.sweeper.b, w.sweeper.present;
    assert RowsOk(w, b.run) && KnownOk(w, b.run);
    WrittenIsArchivable(w, b.run, present);
    WrittenIsArchivable(w, b.run, w.Rows(b.run));
    assert Archivable(w.Measured(b.run)) <= Archivable(present) <= written;
    assert Counts(b, Archivable(w.Measured(b.run)));
    if Counts(b, written) {
      EqualCountsMeanEqualRows(b, Archivable(w.Measured(b.run)), written);
    }
  }

  // ---- every step keeps the books ----

  /** Rows, archives and sweeper as they were but for what is said of them here, and no bounds but those known before. */
  lemma SameRowsKeepBooks(w: World, w': World)
    requires Books(w) && SweeperOk(w')
    requires w'.store == w.store && w'.ever == w.ever && w'.archives == w.archives && w'.measured == w.measured
    requires forall run :: run in w'.known ==> run in w.known && w'.known[run] == w.known[run]
    requires forall run :: w.sweeper == Deleting(run) && run in w'.known ==> w'.sweeper == Deleting(run)
    ensures Books(w')
  {
    hide IsTrue, IsBounds, SweeperOk;
    forall run ensures RowsOk(w', run) && KnownOk(w', run) {
      assert RowsOk(w, run) && KnownOk(w, run);
    }
    forall name | name in w'.archives ensures ArchiveOk(w', name) {
      assert ArchiveOk(w, name);
    }
  }

  lemma IngestKeepsBooks(w: World, run: RunId, rows: set<Row>)
    requires Books(w) && Enabled(w, Ingest(run, rows))
    ensures Books(Next(w, Ingest(run, rows)))
  {
    hide IsTrue, IsBounds;
    var w' := Next(w, Ingest(run, rows));
    forall r ensures RowsOk(w', r) && KnownOk(w', r) {
      assert RowsOk(w, r) && KnownOk(w, r);
    }
    forall name | name in w'.archives ensures ArchiveOk(w', name) {
      assert ArchiveOk(w, name);
    }
  }

  lemma MeasureKeepsBooks(w: World, b: Bounds)
    requires Books(w) && Enabled(w, Measure(b))
    ensures Books(Next(w, Measure(b)))
  {
    hide IsTrue, IsBounds;
    var w' := Next(w, Measure(b));
    forall run ensures RowsOk(w', run) && KnownOk(w', run) {
      assert RowsOk(w, run) && KnownOk(w, run);
    }
    forall name | name in w'.archives ensures ArchiveOk(w', name) {
      assert ArchiveOk(w, name);
    }
  }

  lemma BeginKeepsBooks(w: World, run: RunId)
    requires Books(w) && Enabled(w, Begin(run))
    ensures Books(Next(w, Begin(run)))
  {
    hide DestinationOf, RowsOk, ArchiveOk, IsBounds;
    assert KnownOk(w, run);
    DestinationIsExact(w.archives, w.known[run]);
    SameRowsKeepBooks(w, Next(w, Begin(run)));
  }

  lemma PublishKeepsBooks(w: World, written: set<Row>)
    requires Books(w) && Enabled(w, Publish(written))
    ensures Books(Next(w, Publish(written)))
  {
    hide ArchiveOk, Counts;
    var b := w.sweeper.b;
    assert RowsOk(w, b.run) && KnownOk(w, b.run);
    CheckPassesExactlyWhen(w, written);
    SameRowsKeepBooks(w, Next(w, Publish(written)));
  }

  lemma RenameKeepsBooks(w: World)
    requires Books(w) && Enabled(w, Rename)
    ensures Books(Next(w, Rename))
  {
    hide IsTrue, IsBounds;
    var w' := Next(w, Rename);
    forall run ensures RowsOk(w', run) && KnownOk(w', run) {
      assert RowsOk(w, run) && KnownOk(w, run);
    }
    forall name | name in w'.archives ensures ArchiveOk(w', name) {
      if name != w.sweeper.destination {
        assert ArchiveOk(w, name);
      }
    }
  }

  lemma DeleteKeepsBooks(w: World, chunk: set<Row>)
    requires Books(w) && Enabled(w, DeleteChunk(chunk))
    ensures Books(Next(w, DeleteChunk(chunk)))
  {
    hide IsTrue, IsBounds;
    var w' := Next(w, DeleteChunk(chunk));
    forall run ensures RowsOk(w', run) && KnownOk(w', run) {
      assert RowsOk(w, run) && KnownOk(w, run);
    }
    forall name | name in w'.archives ensures ArchiveOk(w', name) {
      assert ArchiveOk(w, name);
    }
  }

  lemma StepKeepsBooks(w: World, step: Step)
    requires Books(w) && Enabled(w, step)
    ensures Books(Next(w, step)) && ArchivesStay(w.archives, Next(w, step).archives)
  {
    hide RowsOk, ArchiveOk, KnownOk, DestinationOf, Counts;
    match step {
      case Ingest(run, rows) => IngestKeepsBooks(w, run, rows);
      case Measure(b) => MeasureKeepsBooks(w, b);
      case Begin(run) => BeginKeepsBooks(w, run);
      case Publish(written) => PublishKeepsBooks(w, written);
      case Rename => RenameKeepsBooks(w);
      case DeleteChunk(chunk) => DeleteKeepsBooks(w, chunk);
      case Done => SameRowsKeepBooks(w, Next(w, step));
      case Crash => SameRowsKeepBooks(w, Next(w, step));
    }
  }

  ghost predicate ArchivesStay(before: Dirs, after: Dirs) {
    forall name :: name in before ==> name in after && after[name] == before[name]
  }

  // ---- every undisturbed step keeps the rows safe ----

  lemma NewRowsAreNotArchived(w: World, run: RunId, rows: set<Row>, row: Row)
    requires Books(w) && Enabled(w, Ingest(run, rows)) && row in rows
    ensures !Archived(w.archives, run, row)
  {
    hide RowsOk, KnownOk, SweeperOk, IsTrue;
    forall name | name in w.archives && name.run == run && w.archives[name].Some?
      ensures row !in w.archives[name].value.rows
    {
      assert ArchiveOk(w, name);
    }
  }

  lemma IngestKeepsSafe(w: World, run: RunId, rows: set<Row>)
    requires Inv(w) && Enabled(w, Ingest(run, rows)) && Undisturbed(w, Ingest(run, rows)) && WellDated(w, Ingest(run, rows))
    ensures Safe(Next(w, Ingest(run, rows)))
  {
    hide Books, Archived;
    var w' := Next(w, Ingest(run, rows));
    forall r ensures Kept(w', r) {
      assert Kept(w, r);
    }
    forall name | name in w'.archives ensures Covers(w', name) {
      assert Covers(w, name);
    }
    forall row | row in rows ensures !Archived(w.archives, run, row) {
      NewRowsAreNotArchived(w, run, rows, row);
    }
    forall r | r in w'.known && w'.sweeper != Deleting(r) ensures NoneLateArchived(w', r) {
      assert NoneLateArchived(w, r);
    }
    assert Committed(w, run) ==> Archivable(w'.Rows(run)) == Archivable(w.Rows(run));
    assert forall row :: row in w'.Rows(run) && row.archivable ==> row in Archivable(w'.Rows(run));
  }

  /** What is said of rows and archives is kept by a step that moves none and knows no more. */
  lemma SameRowsKeepSafe(w: World, w': World)
    requires Safe(w)
    requires w'.store == w.store && w'.ever == w.ever && w'.archives == w.archives && w'.measured == w.measured
    ensures forall run :: Kept(w', run)
    ensures forall name :: name in w'.archives ==> Covers(w', name)
    ensures forall run :: run in w.known && w.sweeper != Deleting(run) ==> NoneLateArchived(w', run)
  {
    hide Archived;
    forall run ensures Kept(w', run) {
      assert Kept(w, run);
    }
    forall name | name in w'.archives ensures Covers(w', name) {
      assert Covers(w, name);
    }
    forall run | run in w.known && w.sweeper != Deleting(run) ensures NoneLateArchived(w', run) {
      assert NoneLateArchived(w, run);
    }
  }

  lemma MeasureKeepsSafe(w: World, b: Bounds)
    requires Inv(w) && Enabled(w, Measure(b))
    ensures Safe(Next(w, Measure(b)))
  {
    hide Books, Archived, IsBounds;
    var w' := Next(w, Measure(b));
    forall run ensures Kept(w', run) {
      assert Kept(w, run);
    }
    forall name | name in w'.archives ensures Covers(w', name) {
      assert Covers(w, name);
    }
    forall run | run in w'.known ensures NoneLateArchived(w', run) {
      assert run != b.run ==> NoneLateArchived(w, run);
    }
  }

  /** An archive that matches the measured bounds holds every stored row, if none came since. */
  lemma ResumeFindsEveryRow(w: World, b: Bounds, name: Name)
    requires name in w.archives && name.run == b.run && Covers(w, name) && Matches(w.archives[name], b)
    requires IsMeasured(w, b) && Recounts(w, b)
    ensures StoredIsArchived(w, b.run)
  {
    RecountsExactlyWhen(w, b);
    forall row | row in w.Rows(b.run) && row.archivable ensures Archived(w.archives, b.run, row) {
      assert row in Archivable(w.Measured(b.run));
      if w.archives[name].None? {
        EqualCountsMeanEqualRows(b, {}, Archivable(w.Measured(b.run)));
        assert false;
      } else {
        assert row in w.archives[name].value.rows;
      }
    }
  }

  lemma BeginKeepsSafe(w: World, run: RunId)
    requires Inv(w) && Enabled(w, Begin(run)) && Undisturbed(w, Begin(run))
    ensures Safe(Next(w, Begin(run)))
  {
    hide DestinationOf, RowsOk, Archived, Kept, Covers, NoneLateArchived;
    var w' := Next(w, Begin(run));
    var b := w.known[run];
    assert KnownOk(w, run);
    DestinationIsExact(w.archives, b);
    SameRowsKeepSafe(w, w');
    if DestinationOf(w.archives, b).AlreadyThere? {
      var name :| name in w.archives && name.run == b.run && Matches(w.archives[name], b);
      ResumeFindsEveryRow(w, b, name);
    }
  }

  lemma PublishKeepsSafe(w: World, written: set<Row>)
    requires Inv(w) && Enabled(w, Publish(written)) && Undisturbed(w, Publish(written))
    ensures Safe(Next(w, Publish(written)))
  {
    hide Archived, Kept, Covers, NoneLateArchived, Counts;
    var w' := Next(w, Publish(written));
    var b := w.sweeper.b;
    assert KnownOk(w, b.run);
    CheckPassesExactlyWhen(w, written);
    RecountsExactlyWhen(w, b);
    SameRowsKeepSafe(w, w');
  }

  /** What an archival publishes, its rename archives, and nothing more. */
  lemma RenameArchives(w: World, run: RunId, row: Row)
    requires SweeperOk(w) && Enabled(w, Rename)
    ensures var b := w.sweeper.b;
      Archived(Next(w, Rename).archives, run, row) <==>
        Archived(w.archives, run, row) || (run == b.run && row in w.live[b.run].rows)
  {
    var w', destination := Next(w, Rename), w.sweeper.destination;
    if name :| name in w.archives && name.run == run && w.archives[name].Some? && row in w.archives[name].value.rows {
      assert name in w'.archives && w'.archives[name] == w.archives[name];
    }
    if run == w.sweeper.b.run && row in w.live[run].rows {
      assert destination in w'.archives && w'.archives[destination].Some?;
    }
  }

  lemma RenameKeepsSafe(w: World)
    requires Inv(w) && Enabled(w, Rename)
    ensures Safe(Next(w, Rename))
  {
    hide IsTrue, Archived, RowsOk, KnownOk;
    var w' := Next(w, Rename);
    var b, destination := w.sweeper.b, w.sweeper.destination;
    forall run, row ensures Archived(w'.archives, run, row) <==>
        Archived(w.archives, run, row) || (run == b.run && row in w.live[b.run].rows)
    {
      RenameArchives(w, run, row);
    }
    forall run ensures Kept(w', run) {
      assert Kept(w, run);
    }
    forall name | name in w'.archives ensures Covers(w', name) {
      if name != destination {
        assert Covers(w, name);
      }
    }
    forall run | run in w'.known && w'.sweeper != Deleting(run) ensures NoneLateArchived(w', run) {
      assert NoneLateArchived(w, run);
    }
  }

  lemma DeleteKeepsSafe(w: World, chunk: set<Row>)
    requires Inv(w) && Enabled(w, DeleteChunk(chunk))
    ensures Safe(Next(w, DeleteChunk(chunk)))
  {
    hide Books, Archived;
    var w' := Next(w, DeleteChunk(chunk));
    forall run ensures Kept(w', run) {
      assert Kept(w, run);
    }
    forall name | name in w'.archives ensures Covers(w', name) {
      assert Covers(w, name);
    }
    forall run | run in w'.known && w'.sweeper != Deleting(run) ensures NoneLateArchived(w', run) {
      assert NoneLateArchived(w, run);
    }
  }

  lemma BookkeepingKeepsSafe(w: World, step: Step)
    requires Inv(w) && Enabled(w, step) && (step.Done? || step.Crash?)
    ensures Safe(Next(w, step))
  {
    hide Books, Kept, Covers, NoneLateArchived, Archived;
    SameRowsKeepSafe(w, Next(w, step));
  }

  lemma StepKeepsInv(w: World, step: Step)
    requires Inv(w) && Enabled(w, step) && Undisturbed(w, step) && WellDated(w, step)
    ensures Inv(Next(w, step))
  {
    hide Books, Safe, Next, Enabled, Undisturbed, WellDated;
    StepKeepsBooks(w, step);
    match step {
      case Ingest(run, rows) => IngestKeepsSafe(w, run, rows);
      case Measure(b) => MeasureKeepsSafe(w, b);
      case Begin(run) => BeginKeepsSafe(w, run);
      case Publish(written) => PublishKeepsSafe(w, written);
      case Rename => RenameKeepsSafe(w);
      case DeleteChunk(chunk) => DeleteKeepsSafe(w, chunk);
      case Done => BookkeepingKeepsSafe(w, step);
      case Crash => BookkeepingKeepsSafe(w, step);
    }
  }

  // ---- whole runs ----

  ghost predicate Possible(w: World, steps: seq<Step>)
    decreases |steps|
  {
    steps == [] || (Enabled(w, steps[0]) && Possible(Next(w, steps[0]), steps[1..]))
  }

  ghost predicate NeverDisturbed(w: World, steps: seq<Step>)
    requires Possible(w, steps)
    decreases |steps|
  {
    steps != [] ==> Undisturbed(w, steps[0]) && NeverDisturbed(Next(w, steps[0]), steps[1..])
  }

  ghost predicate AllWellDated(w: World, steps: seq<Step>)
    requires Possible(w, steps)
    decreases |steps|
  {
    steps != [] ==> WellDated(w, steps[0]) && AllWellDated(Next(w, steps[0]), steps[1..])
  }

  ghost function RunSteps(w: World, steps: seq<Step>): World
    requires Possible(w, steps)
    decreases |steps|
  {
    if steps == [] then w else RunSteps(Next(w, steps[0]), steps[1..])
  }

  lemma {:induction false} RunKeepsBooks(w: World, steps: seq<Step>)
    requires Books(w) && Possible(w, steps)
    ensures Books(RunSteps(w, steps))
    ensures ArchivesStay(w.archives, RunSteps(w, steps).archives)
    decreases |steps|
  {
    if steps != [] {
      hide Books, Next, Enabled;
      StepKeepsBooks(w, steps[0]);
      RunKeepsBooks(Next(w, steps[0]), steps[1..]);
    }
  }

  lemma {:induction false} RunKeepsInv(w: World, steps: seq<Step>)
    requires Inv(w) && Possible(w, steps) && NeverDisturbed(w, steps) && AllWellDated(w, steps)
    ensures Inv(RunSteps(w, steps))
    decreases |steps|
  {
    if steps != [] {
      hide Inv, Next, Enabled, Undisturbed, WellDated;
      StepKeepsInv(w, steps[0]);
      RunKeepsInv(Next(w, steps[0]), steps[1..]);
    }
  }

  function EmptyWorld(): World {
    World(map[], map[], map[], map[], Idle, map[], map[])
  }

  /**
   * Through any sequence of ingests and sweeps with a crash between any two steps, every archivable row a run was ever
   * given is in the live store or in a telemetry file under archives/.
   */
  lemma NoRowIsEverLost(steps: seq<Step>, run: RunId, row: Row)
    requires Possible(EmptyWorld(), steps) && NeverDisturbed(EmptyWorld(), steps) && AllWellDated(EmptyWorld(), steps)
    requires var w := RunSteps(EmptyWorld(), steps); row in w.Ever(run) && row.archivable
    ensures var w := RunSteps(EmptyWorld(), steps);
      row in w.Rows(run) || Archived(w.archives, run, row)
  {
    RunKeepsInv(EmptyWorld(), steps);
    assert Kept(RunSteps(EmptyWorld(), steps), run);
  }

  /**
   * Whatever rows arrive whenever, every manifest under archives/ has the counts of its file's rows and a `max_ts` that
   * none of them exceeds.
   */
  lemma EveryManifestIsTrue(steps: seq<Step>, name: Name)
    requires Possible(EmptyWorld(), steps)
    requires var archives := RunSteps(EmptyWorld(), steps).archives; name in archives && archives[name].Some?
    ensures IsTrue(RunSteps(EmptyWorld(), steps).archives[name].value)
  {
    RunKeepsBooks(EmptyWorld(), steps);
    assert ArchiveOk(RunSteps(EmptyWorld(), steps), name);
  }

  /** No archive already there is ever rewritten or removed, whatever happens after and whatever rows arrive when. */
  lemma NoArchiveIsRewritten(steps: seq<Step>, more: seq<Step>)
    requires Possible(EmptyWorld(), steps) && Possible(RunSteps(EmptyWorld(), steps), more)
    ensures var w := RunSteps(EmptyWorld(), steps); ArchivesStay(w.archives, RunSteps(w, more).archives)
  {
    RunKeepsBooks(EmptyWorld(), steps);
    RunKeepsBooks(RunSteps(EmptyWorld(), steps), more);
  }

  // ---- where a sweep can lose a row ----

  /** Whatever the deletion now begun has come to, each row is stored or archived. */
  ghost predicate DeletesSafely(w: World) {
    w.sweeper.Deleting? &&
    forall chunk :: Enabled(w, DeleteChunk(chunk)) ==> Kept(Next(w, DeleteChunk(chunk)), w.sweeper.run)
  }

  lemma DeletesSafelyExactlyWhen(w: World)
    requires w.sweeper.Deleting? && RowsOk(w, w.sweeper.run) && Kept(w, w.sweeper.run)
    ensures DeletesSafely(w) <==> StoredIsArchived(w, w.sweeper.run)
  {
    var run := w.sweeper.run;
    forall row | row in w.Rows(run) && row.archivable && !Archived(w.archives, run, row) ensures !DeletesSafely(w) {
      var gone := Next(w, DeleteChunk({row}));
      assert row in gone.Ever(run) && row !in gone.Rows(run);
      assert !Kept(gone, run);
    }
  }

  /** A resume deletes nothing unarchived exactly when the stored rows still count as they did when they were measured. */
  lemma ResumeIsSafeExactlyWhen(w: World, run: RunId)
    requires Inv(w) && Enabled(w, Begin(run)) && DestinationOf(w.archives, w.known[run]).AlreadyThere?
    ensures DeletesSafely(Next(w, Begin(run))) <==> Recounts(w, w.known[run])
  {
    hide DestinationOf, Covers;
    var b, resumed := w.known[run], Next(w, Begin(run));
    assert RowsOk(w, run) && Kept(w, run) && RowsOk(resumed, run) && Kept(resumed, run) && KnownOk(w, run);
    DestinationIsExact(w.archives, b);
    DeletesSafelyExactlyWhen(resumed);
    RecountsExactlyWhen(w, b);
    if Recounts(w, b) {
      var name :| name in w.archives && name.run == b.run && Matches(w.archives[name], b);
      ResumeFindsEveryRow(w, b, name);
    } else {
      ALateRowIsNotArchived(w, run);
    }
  }

  /** If the stored rows are no longer the measured ones, one of them is archivable and in no archive. */
  lemma ALateRowIsNotArchived(w: World, run: RunId)
    requires w.Measured(run) <= w.Rows(run) && NoneLateArchived(w, run)
    requires Archivable(w.Rows(run)) != Archivable(w.Measured(run))
    ensures exists row :: row in w.Rows(run) - w.Measured(run) && row.archivable && !Archived(w.archives, run, row)
  {
    var row :| row in Archivable(w.Rows(run)) && row !in Archivable(w.Measured(run));
    assert row in w.Rows(run) - w.Measured(run);
  }

  /** A move whose count check passed deletes nothing unarchived exactly when the stored rows then count the same. */
  lemma MoveIsSafeExactlyWhen(w: World, written: set<Row>)
    requires Inv(w) && Enabled(w, Publish(written)) && Counts(w.sweeper.b, written)
    ensures DeletesSafely(Next(Next(w, Publish(written)), Rename)) <==> Recounts(w, w.sweeper.b)
  {
    hide Covers, Counts, ArchiveOk, Archived;
    var b, published := w.sweeper.b, Next(w, Publish(written));
    var moved := Next(published, Rename);
    assert RowsOk(w, b.run) && KnownOk(w, b.run) && Kept(w, b.run) && NoneLateArchived(w, b.run);
    CheckPassesExactlyWhen(w, written);
    RecountsExactlyWhen(w, b);
    PublishKeepsBooks(w, written);
    forall row ensures Archived(moved.archives, b.run, row) <==> Archived(w.archives, b.run, row) || row in written {
      RenameArchives(published, b.run, row);
    }
    DeletesSafelyExactlyWhen(moved);
    if !Recounts(w, b) {
      ALateRowIsNotArchived(w, b.run);
    }
  }

  /** The sweeper is, or is about to be, at a deletion that can lose a row. */
  ghost predicate CanLose(w: World) {
    match w.sweeper
    case Published(_, _) => Enabled(w, Rename) && !DeletesSafely(Next(w, Rename))
    case Deleting(_) => !DeletesSafely(w)
    case _ => false
  }

  /** An archivable row that arrives for a run already published or being deleted can be deleted without an archive. */
  lemma ARowAfterThePublishCanBeLost(w: World, run: RunId, rows: set<Row>, row: Row)
    requires Books(w) && Committed(w, run) && row in rows && row.archivable && Enabled(w, Ingest(run, rows))
    ensures CanLose(Next(w, Ingest(run, rows)))
  {
    hide ArchiveOk, KnownOk, Archived;
    var ingested := Next(w, Ingest(run, rows));
    var deleting := if w.sweeper.Published? then Next(ingested, Rename) else ingested;
    NewRowsAreNotArchived(w, run, rows, row);
    if w.sweeper.Published? {
      IngestKeepsBooks(w, run, rows);
      RenameArchives(ingested, run, row);
    }
    assert !Archived(deleting.archives, run, row);
    var gone := Next(deleting, DeleteChunk({row}));
    assert row in gone.Ever(run) && !Kept(gone, run);
  }

  lemma InvCannotLose(w: World)
    requires Inv(w)
    ensures !CanLose(w)
  {
    hide ArchiveOk, KnownOk, Archived, Covers, NoneLateArchived;
    if w.sweeper.Deleting? {
      assert RowsOk(w, w.sweeper.run) && Kept(w, w.sweeper.run);
      DeletesSafelyExactlyWhen(w);
    } else if w.sweeper.Published? {
      RenameKeepsBooks(w);
      RenameKeepsSafe(w);
      var renamed := Next(w, Rename);
      assert RowsOk(renamed, renamed.sweeper.run) && Kept(renamed, renamed.sweeper.run);
      DeletesSafelyExactlyWhen(renamed);
    }
  }

  lemma DisturbedStepCanLose(w: World, step: Step)
    requires Inv(w) && Enabled(w, step) && !Undisturbed(w, step)
    ensures CanLose(Next(w, step))
  {
    hide RowsOk, KnownOk, ArchiveOk, Safe, DestinationOf, DeletesSafely, Counts;
    match step {
      case Ingest(run, rows) =>
        var row :| row in rows && row.archivable && Committed(w, run);
        ARowAfterThePublishCanBeLost(w, run, rows, row);
      case Begin(run) => ResumeIsSafeExactlyWhen(w, run);
      case Publish(written) => MoveIsSafeExactlyWhen(w, written);
    }
  }

  /** Of the steps that date their rows well, exactly those that disturb a sweep bring it to a deletion that can lose a row. */
  lemma UndisturbedExactlyWhen(w: World, step: Step)
    requires Inv(w) && Enabled(w, step) && WellDated(w, step)
    ensures Undisturbed(w, step) <==> !CanLose(Next(w, step))
  {
    hide Inv, CanLose, Undisturbed, WellDated, Next, Enabled;
    if Undisturbed(w, step) {
      StepKeepsInv(w, step);
      InvCannotLose(Next(w, step));
    } else {
      DisturbedStepCanLose(w, step);
    }
  }

  ghost predicate NeverCanLose(w: World, steps: seq<Step>)
    requires Possible(w, steps)
    decreases |steps|
  {
    !CanLose(w) && (steps != [] ==> NeverCanLose(Next(w, steps[0]), steps[1..]))
  }

  /**
   * Over every run whose rows are well dated: it is undisturbed if and only if at no moment the sweeper is at, or about
   * to be at, a deletion that can lose a row.
   */
  lemma {:induction false} NeverDisturbedExactlyWhen(w: World, steps: seq<Step>)
    requires Inv(w) && Possible(w, steps) && AllWellDated(w, steps)
    ensures NeverDisturbed(w, steps) <==> NeverCanLose(w, steps)
    decreases |steps|
  {
    hide Inv, CanLose, Undisturbed, WellDated, Next, Enabled;
    InvCannotLose(w);
    if steps != [] {
      UndisturbedExactlyWhen(w, steps[0]);
      if Undisturbed(w, steps[0]) {
        StepKeepsInv(w, steps[0]);
        NeverDisturbedExactlyWhen(Next(w, steps[0]), steps[1..]);
      }
    }
  }

  const EARLY := Row(SpanKind, 1.0, 1, 1.0, true)
  const BETWEEN := Row(SpanKind, 1.5, 3, 1.5, true)
  const MIDDLE := Row(SpanKind, 2.0, 2, 2.0, true)
  const LATE := Row(SpanKind, 3.0, 3, 3.0, true)

  const TWO_SPANS := Bounds("run", 2.0, 2, 0, 0)

  lemma TwoSpans(a: Row, b: Row)
    requires a != b && a.kind == SpanKind == b.kind && a.archivable && b.archivable
    ensures Counts(TWO_SPANS, {a, b}) && Archivable({a, b}) == {a, b}
    ensures a.hi <= 2.0 == b.hi ==> IsBounds(TWO_SPANS, {a, b})
  {
    var rows := {a, b};
    assert RowsOfKind(rows, SpanKind) == rows && RowsOfKind(rows, LogKind) == {} && RowsOfKind(rows, MetricKind) == {};
    assert Archivable(rows) == rows;
    assert b in rows;
  }

  /** A run of two rows is archived up to its rename. */
  function MoveSteps(): seq<Step> {
    [Ingest("run", {EARLY, MIDDLE}), Measure(TWO_SPANS), Begin("run"), Publish({EARLY, MIDDLE}), Rename]
  }

  function MovedWorld(): World {
    var rows := map["run" := {EARLY, MIDDLE}];
    World(rows, map[], map[Own("run") := Some(Telemetry(TWO_SPANS, {EARLY, MIDDLE}))], map["run" := TWO_SPANS],
          Deleting("run"), rows, rows)
  }

  lemma OneStep(w: World, step: Step, rest: seq<Step>)
    requires Enabled(w, step) && Undisturbed(w, step) && WellDated(w, step)
    requires var w' := Next(w, step); Possible(w', rest) && NeverDisturbed(w', rest) && AllWellDated(w', rest)
    ensures Possible(w, [step] + rest) && NeverDisturbed(w, [step] + rest) && AllWellDated(w, [step] + rest)
    ensures RunSteps(w, [step] + rest) == RunSteps(Next(w, step), rest)
  {
    assert ([step] + rest)[1..] == rest;
  }

  /** The run's two rows are stored and measured. */
  function MeasuredWorld(): World {
    var rows := map["run" := {EARLY, MIDDLE}];
    World(rows, map[], map[], map["run" := TWO_SPANS], Idle, rows, rows)
  }

  lemma MovesFromMeasured()
    ensures var steps := [Begin("run"), Publish({EARLY, MIDDLE}), Rename];
      && Possible(MeasuredWorld(), steps) && NeverDisturbed(MeasuredWorld(), steps) && AllWellDated(MeasuredWorld(), steps)
      && RunSteps(MeasuredWorld(), steps) == MovedWorld()
  {
    var both, measured := {EARLY, MIDDLE}, MeasuredWorld();
    TwoSpans(EARLY, MIDDLE);
    var decided := measured.(sweeper := Decided(TWO_SPANS, Own("run"), both));
    var published := measured.(live := map["run" := Telemetry(TWO_SPANS, both)], sweeper := Published(TWO_SPANS, Own("run")));
    assert Written(both) == both;
    assert Next(measured, Begin("run")) == decided;
    assert Next(decided, Publish(both)) == published;
    assert Next(published, Rename) == MovedWorld();
    OneStep(published, Rename, []);
    OneStep(decided, Publish(both), [Rename]);
    OneStep(measured, Begin("run"), [Publish(both), Rename]);
  }

  lemma MovedWorldIsReached()
    ensures Possible(EmptyWorld(), MoveSteps()) && NeverDisturbed(EmptyWorld(), MoveSteps()) && AllWellDated(EmptyWorld(), MoveSteps())
    ensures RunSteps(EmptyWorld(), MoveSteps()) == MovedWorld()
  {
    var both := {EARLY, MIDDLE};
    var rows := map["run" := both];
    TwoSpans(EARLY, MIDDLE);
    MovesFromMeasured();
    hide MovedWorld, RunSteps, Possible, NeverDisturbed, AllWellDated;
    var ingested := World(rows, map[], map[], map[], Idle, rows, map[]);
    assert Next(EmptyWorld(), Ingest("run", both)) == ingested;
    assert Next(ingested, Measure(TWO_SPANS)) == MeasuredWorld();
    var last := [Begin("run"), Publish(both), Rename];
    OneStep(ingested, Measure(TWO_SPANS), last);
    OneStep(EmptyWorld(), Ingest("run", both), [Measure(TWO_SPANS)] + last);
    assert MoveSteps() == [Ingest("run", both)] + ([Measure(TWO_SPANS)] + last);
  }

  ghost predicate Lost(w: World, run: RunId, row: Row) {
    row in w.Ever(run) && row.archivable && row !in w.Rows(run) && !Archived(w.archives, run, row)
  }

  /**
   * A crash after the rename, and in the next pass a row that arrives between the measuring and the resume: the resume
   * deletes it, and no archive holds it.
   */
  lemma IngestDuringASweepCanLoseARow()
    ensures var crashed := Next(MovedWorld(), Crash);
      && Enabled(crashed, Measure(TWO_SPANS))
      && var measured := Next(crashed, Measure(TWO_SPANS));
      && Enabled(measured, Ingest("run", {LATE})) && WellDated(measured, Ingest("run", {LATE}))
      && var disturbed := Next(measured, Ingest("run", {LATE}));
      && Enabled(disturbed, Begin("run"))
      && var resumed := Next(disturbed, Begin("run"));
      && Enabled(resumed, DeleteChunk(resumed.Rows("run")))
      && Lost(Next(resumed, DeleteChunk(resumed.Rows("run"))), "run", LATE)
  {
    TwoSpans(EARLY, MIDDLE);
    assert DestinationOf(MovedWorld().archives, TWO_SPANS) == AlreadyThere;
    assert forall name :: name in MovedWorld().archives ==> name == Own("run");
  }

  /**
   * A crash between two deletes, and then a row dated before the archive's end: what is stored counts as the archive
   * does, so the resume takes it for the archived run and deletes the row.
   */
  lemma AnOlderRowCanPassForAnArchivedOne()
    ensures var crashed := Next(Next(MovedWorld(), DeleteChunk({EARLY})), Crash);
      && Enabled(crashed, Ingest("run", {BETWEEN}))
      && var ingested := Next(crashed, Ingest("run", {BETWEEN}));
      && Enabled(ingested, Measure(TWO_SPANS))
      && var measured := Next(ingested, Measure(TWO_SPANS));
      && Enabled(measured, Begin("run")) && Undisturbed(measured, Begin("run"))
      && var resumed := Next(measured, Begin("run"));
      && Enabled(resumed, DeleteChunk({BETWEEN}))
      && Lost(Next(resumed, DeleteChunk({BETWEEN})), "run", BETWEEN)
  {
    TwoSpans(BETWEEN, MIDDLE);
    assert {EARLY, MIDDLE} - {EARLY} + {BETWEEN} == {BETWEEN, MIDDLE};
    assert DestinationOf(MovedWorld().archives, TWO_SPANS) == AlreadyThere;
    assert forall name :: name in MovedWorld().archives ==> name == Own("run");
  }

  // ---- one archival without a crash ----

  datatype Outcome = Moved(name: Name) | Resumed | Failed

  /** `archive_run` from start to end, as the machine's steps. */
  function Uninterrupted(w: World, run: RunId): (World, Outcome)
    requires w.sweeper.Idle? && run in w.known && w.known[run].run == run
  {
    var begun := Next(w, Begin(run));
    if begun.sweeper.Idle? then (begun, Failed)
    else if begun.sweeper.Deleting? then
      (Next(Next(begun, DeleteChunk(begun.Rows(run))), Done), Resumed)
    else
      var published := Next(begun, Publish(Written(begun.Rows(run))));
      if published.sweeper.Idle? then (published, Failed)
      else
        var renamed := Next(published, Rename);
        (Next(Next(renamed, DeleteChunk(renamed.Rows(run))), Done), Moved(begun.sweeper.destination))
  }

  /** What one archival leaves: the store, the live files, the archives and the outcome. */
  datatype Left = Left(store: map<RunId, set<Row>>, live: map<RunId, Telemetry>, archives: Dirs, outcome: Outcome)

  function ArchiveRunSpec(store: map<RunId, set<Row>>, live: map<RunId, Telemetry>, archives: Dirs, b: Bounds): Left
    requires b.run in store
  {
    match DestinationOf(archives, b)
    case Taken => Left(store, live, archives, Failed)
    case AlreadyThere => Left(store[b.run := {}], live, archives, Resumed)
    case MoveTo(name) =>
      var written := Written(store[b.run]);
      if !Counts(b, written) then Left(store, live, archives, Failed)
      else Left(store[b.run := {}], live - {b.run}, archives[name := Some(Telemetry(b, written))], Moved(name))
  }

  /** One archival from start to end is the machine's steps with no crash between them. */
  lemma ArchiveRunIsTheUninterruptedMachine(w: World, run: RunId)
    requires w.sweeper.Idle? && run in w.known && w.known[run].run == run && run in w.store
    ensures var left := ArchiveRunSpec(w.store, w.live, w.archives, w.known[run]);
      var (after, outcome) := Uninterrupted(w, run);
      outcome == left.outcome && after.store == left.store && after.live == left.live && after.archives == left.archives
  {
    hide DestinationOf, Counts, Written;
    var b := w.known[run];
    match DestinationOf(w.archives, b) {
      case Taken =>
      case AlreadyThere => DeletesEverything(Next(w, Begin(run)), run);
      case MoveTo(name) =>
        var begun := w.(sweeper := Decided(b, name, w.Rows(run)));
        assert Next(w, Begin(run)) == begun;
        if Counts(b, Written(w.store[run])) {
          var telemetry := Telemetry(b, Written(w.store[run]));
          var published := begun.(live := w.live[run := telemetry], sweeper := Published(b, name));
          assert Next(begun, Publish(Written(begun.Rows(run)))) == published;
          var renamed := Next(published, Rename);
          assert w.live[run := telemetry] - {run} == w.live - {run};
          DeletesEverything(renamed, run);
        }
    }
  }

  /** The bounds count exactly these rows. */
  predicate CountsExactly(b: Bounds, rows: set<Row>) {
    && b.spans == |set row | row in rows && row.kind == SpanKind|
    && b.logs == |set row | row in rows && row.kind == LogKind|
    && b.metrics == |set row | row in rows && row.kind == MetricKind|
  }

  /**
   * One archival with no crash: a free name and rows that still have the measured counts, and the run's archivable rows are
   * under that name with the measured bounds; an archive there already, and nothing is moved; either way the run's rows
   * and, if moved, its live directory are gone. In every other case nothing changes.
   */
  lemma ArchivalDoesExactly(store: map<RunId, set<Row>>, live: map<RunId, Telemetry>, archives: Dirs, b: Bounds)
    requires b.run in store && forall row :: row in store[b.run] ==> Less(ORIGIN, KeyOf(row))
    ensures var left, rows := ArchiveRunSpec(store, live, archives, b), set row | row in store[b.run] && row.archivable;
      match DestinationOf(archives, b)
      case MoveTo(name) =>
        if CountsExactly(b, rows) then
          left == Left(store[b.run := {}], live - {b.run}, archives[name := Some(Telemetry(b, rows))], Moved(name))
        else left == Left(store, live, archives, Failed)
      case AlreadyThere => left == Left(store[b.run := {}], live, archives, Resumed)
      case Taken => left == Left(store, live, archives, Failed)
  {
    var rows := set row | row in store[b.run] && row.archivable;
    assert Written(store[b.run]) == rows;
    assert forall kind :: RowsOfKind(rows, kind) == set row | row in rows && row.kind == kind;
    hide DestinationOf;
  }

  lemma DeletesEverything(w: World, run: RunId)
    requires w.sweeper == Deleting(run)
    ensures var after := Next(Next(w, DeleteChunk(w.Rows(run))), Done);
      after.store == w.store[run := {}] && after.live == w.live && after.archives == w.archives
  {
    assert w.Rows(run) - w.Rows(run) == {};
  }

  class Archiver {
    var store: map<RunId, set<Row>>
    var live: map<RunId, Telemetry>
    var archives: Dirs

    constructor ()
      ensures store == map[] && live == map[] && archives == map[]
    {
      store, live, archives := map[], map[], map[];
    }

    /** `archive_run` on the records `records` reads back for the run. */
    method ArchiveRun(b: Bounds, records: seq<Row>) returns (outcome: Outcome)
      requires b.run in store && (set row | row in records) == Written(store[b.run])
      requires forall kind :: |OfKind(records, kind)| == |RowsOfKind(Written(store[b.run]), kind)|
      modifies this
      ensures Left(store, live, archives, outcome) == ArchiveRunSpec(old(store), old(live), old(archives), b)
    {
      hide DestinationOf;
      var destination := FindDestination(archives, b);
      match destination {
        case Taken => return Failed;
        case AlreadyThere => outcome := Resumed;
        case MoveTo(name) =>
          var published := WriteTelemetry(b, records);
          assert published.Some? <==> Counts(b, Written(store[b.run]));
          if published.None? {
            return Failed;
          }
          live := live[b.run := published.value];
          archives := archives[name := Some(published.value)];
          live := live - {b.run};
          assert live == old(live) - {b.run};
          outcome := Moved(name);
      }
      store := store[b.run := {}];
    }
  }
}
