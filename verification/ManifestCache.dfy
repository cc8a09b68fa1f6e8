/**
 * core/stablemate_core/manifest.py: one load through the stat-stamped manifest cache. What it observes, the stat, the
 * clock and the read, are its parameters; `ManifestThreads` interleaves the steps of many loads with writes.
 */
module ManifestCache {
  import opened Wrappers

  const RACY_NS := 2_000_000_000

  type Path = string

  datatype Stamp = Stamp(mtimeNs: int, size: nat)

  datatype Held<Doc> = Held(stamp: Stamp, document: Doc, readNs: int, failed: Option<Stamp>, failedReadNs: int)

  datatype Answer<Doc> = Answered(document: Doc) | Raised

  predicate Settled(stamp: Stamp, readNs: int) {
    readNs - stamp.mtimeNs > RACY_NS
  }

  // ---- load_manifest ----

  predicate HitsStamp<Doc>(held: map<Path, Held<Doc>>, path: Path, stat: Option<Stamp>) {
    path in held && stat.Some? && held[path].stamp == stat.value && Settled(stat.value, held[path].readNs)
  }

  predicate HitsFailed<Doc>(held: map<Path, Held<Doc>>, path: Path, stat: Option<Stamp>) {
    path in held && stat.Some? && held[path].failed == stat && Settled(stat.value, held[path].failedReadNs)
  }

  predicate Hits<Doc>(held: map<Path, Held<Doc>>, path: Path, stat: Option<Stamp>) {
    HitsStamp(held, path, stat) || HitsFailed(held, path, stat)
  }

  /** The cache and the answer after a load that stats `stat` and, when that is no hit, reads `read` at clock `readNs`. */
  function LoadSpec<Doc>(held: map<Path, Held<Doc>>, path: Path, stat: Option<Stamp>, readNs: int, read: Option<Doc>)
    : (map<Path, Held<Doc>>, Answer<Doc>)
  {
    if Hits(held, path, stat) then (held, Answered(held[path].document)) else MissSpec(held, path, stat, readNs, read)
  }

  /** The same for a load that reads. */
  function MissSpec<Doc>(held: map<Path, Held<Doc>>, path: Path, stat: Option<Stamp>, readNs: int, read: Option<Doc>)
    : (map<Path, Held<Doc>>, Answer<Doc>)
  {
    if read.None? then
      if path !in held || stat.None? then (held, Raised)
      else (held[path := held[path].(failed := stat, failedReadNs := readNs)], Answered(held[path].document))
    else if stat.Some? then (held[path := Held(stat.value, read.value, readNs, None, 0)], Answered(read.value))
    else (held, Answered(read.value))
  }

  class Cache<Doc> {
    var held: map<Path, Held<Doc>>

    constructor ()
      ensures held == map[]
    {
      held := map[];
    }

    method LoadManifest(path: Path, stat: Option<Stamp>, readNs: int, read: Option<Doc>) returns (answer: Answer<Doc>)
      modifies this
      ensures (held, answer) == LoadSpec(old(held), path, stat, readNs, read)
    {
      if path in held && stat.Some? {
        var entry := held[path];
        if entry.stamp == stat.value && Settled(stat.value, entry.readNs) {
          return Answered(entry.document);
        }
        if entry.failed == stat && Settled(stat.value, entry.failedReadNs) {
          return Answered(entry.document);
        }
      }
      match read
      case None =>
        if path !in held || stat.None? {
          return Raised;
        }
        held := held[path := held[path].(failed := stat, failedReadNs := readNs)];
        answer := Answered(held[path].document);
      case Some(document) =>
        if stat.Some? {
          held := held[path := Held(stat.value, document, readNs, None, 0)];
        }
        answer := Answered(document);
    }
  }

  // ---- what the docstring promises of one load ----

  /** A re-read that fails keeps the last good document exactly when the file was there to stat. */
  lemma FailedRereadKeepsTheLastGoodExactlyWhen<Doc>(held: map<Path, Held<Doc>>, path: Path, stat: Option<Stamp>, readNs: int)
    requires path in held
    ensures LoadSpec(held, path, stat, readNs, None).1 == Answered(held[path].document) <==> stat.Some?
  {
    assert LoadSpec(held, path, None, readNs, None).1 == Raised;
  }

  /** A good re-read becomes the last good document exactly when the file was there to stat, or nothing changed. */
  lemma GoodRereadIsRememberedExactlyWhen<Doc>(
      held: map<Path, Held<Doc>>, path: Path, stat: Option<Stamp>, readNs: int, document: Doc)
    requires !Hits(held, path, stat)
    ensures var held' := LoadSpec(held, path, stat, readNs, Some(document)).0;
      path in held' && held'[path].document == document <==>
        stat.Some? || (path in held && held[path].document == document)
  {
  }

  /** What is held answers for the file: it was read, or failed to read, under this very stamp, more than two seconds after its mtime. */
  predicate AnswersFor<Doc>(held: Held<Doc>, stamp: Stamp) {
    || (held.stamp == stamp && held.readNs - stamp.mtimeNs > 2_000_000_000)
    || (held.failed == Some(stamp) && held.failedReadNs - stamp.mtimeNs > 2_000_000_000)
  }

  /**
   * A file is not read again, its last good document answered and nothing changed, exactly when what is held answers for
   * its stamp; any other load answers what it reads.
   */
  lemma UnchangedIsNotReadAgainExactlyWhen<Doc>(
      held: map<Path, Held<Doc>>, path: Path, stat: Option<Stamp>, readNs: int, document: Doc, other: Doc)
    requires document != other
    ensures var once, again := LoadSpec(held, path, stat, readNs, Some(document)), LoadSpec(held, path, stat, readNs, Some(other));
      var unread := path in held && stat.Some? && AnswersFor(held[path], stat.value);
      && (once == again <==> unread)
      && (unread ==> once == (held, Answered(held[path].document)) && LoadSpec(held, path, stat, readNs, None) == once)
      && (!unread ==> once.1 == Answered(document))
  {
  }
}
