/**
 * core/stablemate_core/config.py: the home-config cache, whose stamp covers several source files.
 *
 * A source that is missing leaves no part in the stamp, so it is not protected by the racy window. The law of the
 * manifest cache then holds exactly for the entries whose read used no source the stamp does not name.
 */
module HomeConfigCache {
  import opened Wrappers

  const RACY_NS := 2_000_000_000

  type Path = string

  datatype Part = Part(source: Path, mtimeNs: int, size: nat)

  type Stamp = seq<Part>

  datatype Held<Doc> = Held(stamp: Stamp, document: Doc, readNs: int, failed: Option<Stamp>, failedReadNs: int)

  datatype Answer<Doc> = Answered(document: Doc) | Raised

  predicate Settled(stamp: Stamp, readNs: int) {
    forall i :: 0 <= i < |stamp| ==> readNs - stamp[i].mtimeNs > RACY_NS
  }

  // ---- load_home_config ----

  predicate HitsStamp<Doc>(held: Option<Held<Doc>>, stamp: Stamp) {
    held.Some? && held.value.stamp == stamp && Settled(stamp, held.value.readNs)
  }

  predicate HitsFailed<Doc>(held: Option<Held<Doc>>, stamp: Stamp) {
    held.Some? && held.value.failed == Some(stamp) && Settled(stamp, held.value.failedReadNs)
  }

  predicate Hits<Doc>(held: Option<Held<Doc>>, stamp: Stamp) {
    HitsStamp(held, stamp) || HitsFailed(held, stamp)
  }

  /** One path's cache entry and the answer after a load that observed `stamp` and, on a miss, read `read` at `readNs`. */
  function LoadSpec<Doc>(held: Option<Held<Doc>>, stamp: Stamp, readNs: int, read: Option<Doc>)
    : (Option<Held<Doc>>, Answer<Doc>)
  {
    if Hits(held, stamp) then (held, Answered(held.value.document))
    else if read.Some? then (Some(Held(stamp, read.value, readNs, None, 0)), Answered(read.value))
    else if held.Some? then
      (Some(held.value.(failed := Some(stamp), failedReadNs := readNs)), Answered(held.value.document))
    else (None, Raised)
  }

  class Cache<Doc> {
    var held: map<Path, Held<Doc>>

    constructor ()
      ensures held == map[]
    {
      held := map[];
    }

    function Entry(path: Path): Option<Held<Doc>>
      reads this
    {
      if path in held then Some(held[path]) else None
    }

    method KeepLastGood(path: Path, stamp: Stamp, readNs: int) returns (document: Doc)
      requires path in held
      modifies this
      ensures held == old(held)[path := old(held)[path].(failed := Some(stamp), failedReadNs := readNs)]
      ensures document == old(held)[path].document
    {
      held := held[path := held[path].(failed := Some(stamp), failedReadNs := readNs)];
      document := held[path].document;
    }

    method LoadHomeConfig(path: Path, stamp: Stamp, readNs: int, read: Option<Doc>) returns (answer: Answer<Doc>)
      modifies this
      ensures (Entry(path), answer) == LoadSpec(old(Entry(path)), stamp, readNs, read)
      ensures held - {path} == old(held) - {path}
    {
      if path in held && held[path].stamp == stamp && Settled(stamp, held[path].readNs) {
        return Answered(held[path].document);
      }
      if path in held && held[path].failed == Some(stamp) && Settled(stamp, held[path].failedReadNs) {
        return Answered(held[path].document);
      }
      match read
      case None =>
        if path !in held {
          return Raised;
        }
        var document := KeepLastGood(path, stamp, readNs);
        answer := Answered(document);
      case Some(document) =>
        held := held[path := Held(stamp, document, readNs, None, 0)];
        answer := Answered(document);
    }

    method Forget(path: Path)
      modifies this
      ensures held == old(held) - {path}
    {
      held := held - {path};
    }
  }

  // ---- files that did not change ----

  predicate AllOlder(stamp: Stamp, readNs: int) {
    forall part :: part in stamp ==> readNs - part.mtimeNs > 2_000_000_000
  }

  /** What is held was read, or failed to read, under this very stamp, more than two seconds after every mtime in it. */
  predicate AnswersFor<Doc>(held: Held<Doc>, stamp: Stamp) {
    || (held.stamp == stamp && AllOlder(stamp, held.readNs))
    || (held.failed == Some(stamp) && AllOlder(stamp, held.failedReadNs))
  }

  /**
   * The sources are not read again, the last good document answered and nothing changed, exactly when what is held answers
   * for their stamp; any other load answers what it reads.
   */
  lemma UnchangedIsNotReadAgainExactlyWhen<Doc>(held: Option<Held<Doc>>, stamp: Stamp, readNs: int, document: Doc, other: Doc)
    requires document != other
    ensures var once, again := LoadSpec(held, stamp, readNs, Some(document)), LoadSpec(held, stamp, readNs, Some(other));
      var unread := held.Some? && AnswersFor(held.value, stamp);
      && (once == again <==> unread)
      && (unread ==> once == (held, Answered(held.value.document)) && LoadSpec(held, stamp, readNs, None) == once)
      && (!unread ==> once.1 == Answered(document))
  {
    assert forall readAt :: AllOlder(stamp, readAt) <==> Settled(stamp, readAt);
  }

  // ---- loads that fail ----

  /** Loads in turn, each with its stamp and clock, none of which can read the config. */
  function FailingLoads<Doc>(held: Option<Held<Doc>>, loads: seq<(Stamp, int)>): (Option<Held<Doc>>, seq<Answer<Doc>>)
    decreases |loads|
  {
    if loads == [] then (held, [])
    else
      var (after, answer) := LoadSpec(held, loads[0].0, loads[0].1, None);
      var (last, answers) := FailingLoads(after, loads[1..]);
      (last, [answer] + answers)
  }

  /**
   * While no read succeeds, a path that loaded before answers its last good document every time, whatever is stamped
   * and marked as failed in between; one that never loaded, or was forgotten, raises every time.
   */
  lemma {:induction false} FailingLoadsAnswerTheLastGood<Doc>(held: Option<Held<Doc>>, loads: seq<(Stamp, int)>)
    ensures var (last, answers) := FailingLoads(held, loads);
      && |answers| == |loads|
      && (held.None? ==> last.None?) && (held.Some? ==> last.Some? && last.value.document == held.value.document)
      && forall i :: 0 <= i < |answers| ==> answers[i] == if held.Some? then Answered(held.value.document) else Raised
    decreases |loads|
  {
    if loads != [] {
      FailingLoadsAnswerTheLastGood(LoadSpec(held, loads[0].0, loads[0].1, None).0, loads[1..]);
    }
  }

  // ---- the source files of one config ----

  datatype File = Absent | Present(mtimeNs: int, size: nat, content: string)

  type Files = map<Path, File>

  /** The effective path, whether the environment or the caller names it, and the legacy files used in its place. */
  datatype Config = Config(path: Path, explicit: bool, legacy: seq<Path>)

  /** How the contents read, in source order, become a document or fail. */
  type Parser<Doc> = seq<(Path, string)> -> Option<Doc>

  function At(files: Files, source: Path): File {
    if source in files then files[source] else Absent
  }

  function Sources(config: Config, files: Files): seq<Path> {
    if At(files, config.path).Present? || config.explicit then [config.path] else [config.path] + config.legacy
  }

  function StampParts(files: Files, sources: seq<Path>): Stamp {
    if sources == [] then []
    else
      var rest := StampParts(files, sources[1..]);
      var file := At(files, sources[0]);
      if file.Present? then [Part(sources[0], file.mtimeNs, file.size)] + rest else rest
  }

  function Contents(files: Files, sources: seq<Path>): seq<(Path, string)> {
    if sources == [] then []
    else
      var rest := Contents(files, sources[1..]);
      var file := At(files, sources[0]);
      if file.Present? then [(sources[0], file.content)] + rest else rest
  }

  function StampOf(config: Config, files: Files): Stamp {
    StampParts(files, Sources(config, files))
  }

  function ReadOf<Doc>(parse: Parser<Doc>, config: Config, files: Files): Option<Doc> {
    parse(Contents(files, Sources(config, files)))
  }

  predicate Names(stamp: Stamp, source: Path) {
    exists i :: 0 <= i < |stamp| && stamp[i].source == source
  }

  /** The files with every source the stamp does not name taken away. */
  function Stamped(files: Files, stamp: Stamp): Files {
    map source | source in files && Names(stamp, source) :: files[source]
  }

  // ---- writers and one loader ----

  datatype Loader<Doc> =
    | Idle
    | Missed(stamp: Stamp)
    | Clocked(stamp: Stamp, readNs: int)
    | HasRead(stamp: Stamp, readNs: int, read: Option<Doc>, seen: Files)

  datatype Pair<Doc> = Pair(cached: Answer<Doc>, uncached: Answer<Doc>)

  /** `seenGood` and `seenBad` are history: the files the held document, and the last failing read, were read from. */
  datatype Sys<Doc> = Sys(
    now: int, files: Files, held: Option<Held<Doc>>, loader: Loader<Doc>,
    lastGood: Option<Doc>, answers: seq<Pair<Doc>>, seenGood: Files, seenBad: Files)

  datatype Step = Tick(ns: nat) | Write(source: Path, file: File) | Forget | Stat | Clock | Read | Finish

  /** The loader that always re-reads, and keeps the last good document when that fails. */
  function UncachedLoad<Doc>(lastGood: Option<Doc>, read: Option<Doc>): (Option<Doc>, Answer<Doc>) {
    if read.Some? then (read, Answered(read.value))
    else if lastGood.Some? then (lastGood, Answered(lastGood.value))
    else (None, Raised)
  }

  predicate Enabled<Doc>(s: Sys<Doc>, step: Step) {
    match step
    case Tick(_) => true
    case Write(_, file) => file.Present? ==> file.mtimeNs >= s.now - RACY_NS
    case Forget => s.loader.Idle?
    case Stat => s.loader.Idle?
    case Clock => s.loader.Missed?
    case Read => s.loader.Clocked?
    case Finish => s.loader.HasRead?
  }

  function Next<Doc>(parse: Parser<Doc>, config: Config, s: Sys<Doc>, step: Step): Sys<Doc>
    requires Enabled(s, step)
  {
    match step
    case Tick(ns) => s.(now := s.now + ns)
    case Write(source, file) => s.(files := s.files[source := file])
    case Forget => s.(held := None, lastGood := None)
    case Stat =>
      var stamp := StampOf(config, s.files);
      if Hits(s.held, stamp) then
        var (lastGood, uncached) := UncachedLoad(s.lastGood, ReadOf(parse, config, s.files));
        s.(lastGood := lastGood, answers := s.answers + [Pair(LoadSpec(s.held, stamp, s.now, None).1, uncached)])
      else s.(loader := Missed(stamp))
    case Clock => s.(loader := Clocked(s.loader.stamp, s.now))
    case Read => s.(loader := HasRead(s.loader.stamp, s.loader.readNs, ReadOf(parse, config, s.files), s.files))
    case Finish =>
      var l := s.loader;
      var (held, cached) := LoadSpec(s.held, l.stamp, l.readNs, l.read);
      var (lastGood, uncached) := UncachedLoad(s.lastGood, l.read);
      s.(held := held, lastGood := lastGood, loader := Idle, answers := s.answers + [Pair(cached, uncached)],
         seenGood := if l.read.Some? then l.seen else s.seenGood,
         seenBad := if l.read.Some? then s.seenBad else l.seen)
  }

  // ---- what a settled stamp protects ----

  /** A settled part whose mtime the source still has: the source is the very file that was read. */
  ghost predicate PartHolds(now: int, files: Files, part: Part, readNs: int, seen: Files) {
    var file := At(files, part.source);
    && readNs <= now
    && (readNs - part.mtimeNs > RACY_NS && file.Present? && file.mtimeNs == part.mtimeNs ==> At(seen, part.source) == file)
  }

  ghost predicate PartsHold(now: int, files: Files, stamp: Stamp, readNs: int, seen: Files) {
    readNs <= now && forall i :: 0 <= i < |stamp| ==> PartHolds(now, files, stamp[i], readNs, seen)
  }

  lemma {:induction false} NamedPartIsThere(files: Files, sources: seq<Path>, i: nat)
    requires i < |StampParts(files, sources)|
    ensures var part := StampParts(files, sources)[i];
      && At(files, part.source).Present? && part.source in sources
      && part.mtimeNs == At(files, part.source).mtimeNs
  {
    if At(files, sources[0]).Present? {
      if i > 0 {
        NamedPartIsThere(files, sources[1..], i - 1);
      }
    } else {
      NamedPartIsThere(files, sources[1..], i);
    }
  }

  lemma {:induction false} PresentSourceIsNamed(files: Files, sources: seq<Path>, source: Path)
    requires source in sources && At(files, source).Present?
    ensures Names(StampParts(files, sources), source)
  {
    var parts := StampParts(files, sources);
    if source == sources[0] {
      assert parts[0].source == source;
    } else {
      PresentSourceIsNamed(files, sources[1..], source);
      var rest := StampParts(files, sources[1..]);
      var i :| 0 <= i < |rest| && rest[i].source == source;
      if At(files, sources[0]).Present? {
        assert parts[i + 1] == rest[i];
      } else {
        assert parts[i] == rest[i];
      }
    }
  }

  /** If the stamp matches and every part holds, re-reading now gives what the stamped sources alone gave then. */
  lemma MatchingStampRereadsTheStampedSources<Doc>(
      parse: Parser<Doc>, config: Config, now: int, files: Files, stamp: Stamp, readNs: int, seen: Files)
    requires StampOf(config, files) == stamp && Settled(stamp, readNs) && PartsHold(now, files, stamp, readNs, seen)
    ensures ReadOf(parse, config, files) == ReadOf(parse, config, Stamped(seen, stamp))
  {
    var sources := Sources(config, files);
    forall source | source in sources ensures At(Stamped(seen, stamp), source) == At(files, source) {
      if Names(stamp, source) {
        var i :| 0 <= i < |stamp| && stamp[i].source == source;
        NamedPartIsThere(files, sources, i);
        assert PartHolds(now, files, stamp[i], readNs, seen);
      } else if At(files, source).Present? {
        PresentSourceIsNamed(files, sources, source);
      }
    }
    assert config.path in sources;
    SameContents(files, Stamped(seen, stamp), sources);
  }

  lemma {:induction false} SameContents(a: Files, b: Files, sources: seq<Path>)
    requires forall source :: source in sources ==> At(a, source) == At(b, source)
    ensures Contents(a, sources) == Contents(b, sources)
  {
    if sources != [] {
      assert sources[0] in sources;
      SameContents(a, b, sources[1..]);
    }
  }

  // ---- what a config is read from ----

  /** The legacy files that are there, in order, with their contents. */
  function LegacyThere(files: Files, legacy: seq<Path>): seq<(Path, string)> {
    if legacy == [] then []
    else
      (if legacy[0] in files && files[legacy[0]].Present? then [(legacy[0], files[legacy[0]].content)] else [])
      + LegacyThere(files, legacy[1..])
  }

  lemma {:induction false} ContentsAreThere(files: Files, sources: seq<Path>)
    ensures Contents(files, sources) == LegacyThere(files, sources)
  {
    if sources != [] {
      ContentsAreThere(files, sources[1..]);
    }
  }

  /**
   * A config that is there is read alone; one that is not is read from the legacy files that are, unless its path was
   * given, and then from nothing.
   */
  lemma ReadFromExactly<Doc>(parse: Parser<Doc>, config: Config, files: Files)
    ensures ReadOf(parse, config, files) ==
      if config.path in files && files[config.path].Present? then parse([(config.path, files[config.path].content)])
      else if config.explicit then parse([])
      else parse(LegacyThere(files, config.legacy))
  {
    var path := config.path;
    ContentsAreThere(files, config.legacy);
    assert [path][1..] == [] && ([path] + config.legacy)[1..] == config.legacy && ([path] + config.legacy)[0] == path;
    assert Contents(files, []) == [];
    if At(files, path).Present? {
      assert Contents(files, [path]) == [(path, files[path].content)];
    } else if config.explicit {
      assert Contents(files, [path]) == [];
    } else {
      assert Contents(files, [path] + config.legacy) == Contents(files, config.legacy);
    }
  }

  // ---- the invariant of every run ----

  ghost predicate Inv<Doc>(parse: Parser<Doc>, config: Config, s: Sys<Doc>) {
    && (s.held.Some? <==> s.lastGood.Some?)
    && (s.held.Some? ==>
          var e := s.held.value;
          && ReadOf(parse, config, s.seenGood) == Some(e.document)
          && PartsHold(s.now, s.files, e.stamp, e.readNs, s.seenGood)
          && (e.failed.Some? ==>
                && ReadOf(parse, config, s.seenBad) == None
                && PartsHold(s.now, s.files, e.failed.value, e.failedReadNs, s.seenBad)))
    && (!s.loader.Idle? ==> !Hits(s.held, s.loader.stamp))
    && (s.loader.Clocked? ==> s.loader.readNs <= s.now)
    && (s.loader.HasRead? ==>
          && s.loader.read == ReadOf(parse, config, s.loader.seen)
          && PartsHold(s.now, s.files, s.loader.stamp, s.loader.readNs, s.loader.seen))
  }

  lemma WriteKeepsParts(now: int, files: Files, stamp: Stamp, readNs: int, seen: Files, source: Path, file: File)
    requires PartsHold(now, files, stamp, readNs, seen)
    requires file.Present? ==> file.mtimeNs >= now - RACY_NS
    ensures PartsHold(now, files[source := file], stamp, readNs, seen)
  {
    forall i | 0 <= i < |stamp| ensures PartHolds(now, files[source := file], stamp[i], readNs, seen) {
      assert PartHolds(now, files, stamp[i], readNs, seen);
    }
  }

  lemma TimeKeepsParts(now: int, later: int, files: Files, stamp: Stamp, readNs: int, seen: Files)
    requires PartsHold(now, files, stamp, readNs, seen) && now <= later
    ensures PartsHold(later, files, stamp, readNs, seen)
  {
    forall i | 0 <= i < |stamp| ensures PartHolds(later, files, stamp[i], readNs, seen) {
      assert PartHolds(now, files, stamp[i], readNs, seen);
    }
  }

  lemma StepKeepsInv<Doc>(parse: Parser<Doc>, config: Config, s: Sys<Doc>, step: Step)
    requires Inv(parse, config, s) && Enabled(s, step)
    ensures Inv(parse, config, Next(parse, config, s, step))
  {
    hide ReadOf, StampOf;
    match step {
      case Write(source, file) =>
        if s.held.Some? {
          var e := s.held.value;
          WriteKeepsParts(s.now, s.files, e.stamp, e.readNs, s.seenGood, source, file);
          if e.failed.Some? {
            WriteKeepsParts(s.now, s.files, e.failed.value, e.failedReadNs, s.seenBad, source, file);
          }
        }
        if s.loader.HasRead? {
          WriteKeepsParts(s.now, s.files, s.loader.stamp, s.loader.readNs, s.loader.seen, source, file);
        }
      case Tick(ns) =>
        if s.held.Some? {
          var e := s.held.value;
          TimeKeepsParts(s.now, s.now + ns, s.files, e.stamp, e.readNs, s.seenGood);
          if e.failed.Some? {
            TimeKeepsParts(s.now, s.now + ns, s.files, e.failed.value, e.failedReadNs, s.seenBad);
          }
        }
        if s.loader.HasRead? {
          TimeKeepsParts(s.now, s.now + ns, s.files, s.loader.stamp, s.loader.readNs, s.loader.seen);
        }
      case Finish =>
      case Read =>
      case _ =>
    }
  }

  /** Once the config's own file is written, the next load answers what was written, or the last good document if that does not parse. */
  lemma AWriteIsAnsweredNext<Doc>(parse: Parser<Doc>, config: Config, s: Sys<Doc>, file: File)
    requires Inv(parse, config, s) && s.loader.Idle? && file.Present? && Enabled(s, Write(config.path, file))
    ensures var written := Next(parse, config, s, Write(config.path, file));
      var read := parse([(config.path, file.content)]);
      && !Hits(written.held, StampOf(config, written.files))
      && LoadSpec(written.held, StampOf(config, written.files), s.now, ReadOf(parse, config, written.files)).1
      == if read.Some? then Answered(read.value) else if s.held.Some? then Answered(s.held.value.document) else Raised
  {
    var written := Next(parse, config, s, Write(config.path, file));
    ReadFromExactly(parse, config, written.files);
    var sources := Sources(config, written.files);
    assert sources == [config.path] && sources[1..] == [];
    var stamp := StampOf(config, written.files);
    assert stamp == [Part(config.path, file.mtimeNs, file.size)] + StampParts(written.files, []);
    assert stamp[0].mtimeNs == file.mtimeNs >= s.now - RACY_NS;
    hide ReadOf, Contents, StampParts, Sources, StampOf;
  }

  // ---- exactly when a hit answers as a re-read ----

  /** What was read came from the stamped sources alone. */
  predicate ReadOnlyStamped<Doc(==)>(parse: Parser<Doc>, config: Config, stamp: Stamp, seen: Files) {
    ReadOf(parse, config, Stamped(seen, stamp)) == ReadOf(parse, config, seen)
  }

  /** Stats taken with the read that name no source the stamp lacks are enough. */
  lemma NoNewSourceReadsOnlyStamped<Doc>(parse: Parser<Doc>, config: Config, stamp: Stamp, seen: Files)
    requires forall source :: source in Sources(config, seen) && At(seen, source).Present? ==> Names(stamp, source)
    requires Names(stamp, config.path) ==> At(seen, config.path).Present?
    ensures ReadOnlyStamped(parse, config, stamp, seen)
  {
    var sources := Sources(config, seen);
    assert config.path in sources;
    SameContents(Stamped(seen, stamp), seen, sources);
  }

  /** A hit, good or failed, answers as re-reading now would exactly when the entry was read from stamped sources only. */
  lemma HitIsRightExactlyWhen<Doc>(parse: Parser<Doc>, config: Config, s: Sys<Doc>)
    requires Inv(parse, config, s)
    ensures HitsStamp(s.held, StampOf(config, s.files)) ==>
      (ReadOf(parse, config, s.files) == Some(s.held.value.document) <==>
         ReadOnlyStamped(parse, config, s.held.value.stamp, s.seenGood))
    ensures HitsFailed(s.held, StampOf(config, s.files)) ==>
      (ReadOf(parse, config, s.files) == None <==>
         ReadOnlyStamped(parse, config, s.held.value.failed.value, s.seenBad))
  {
    hide ReadOf;
    var stamp := StampOf(config, s.files);
    if HitsStamp(s.held, stamp) {
      MatchingStampRereadsTheStampedSources(parse, config, s.now, s.files, stamp, s.held.value.readNs, s.seenGood);
    }
    if HitsFailed(s.held, stamp) {
      MatchingStampRereadsTheStampedSources(parse, config, s.now, s.files, stamp, s.held.value.failedReadNs, s.seenBad);
    }
  }

  // ---- whole runs ----

  /** Every load that finishes read from stamped sources only. */
  predicate CleanStep<Doc(==)>(parse: Parser<Doc>, config: Config, s: Sys<Doc>, step: Step) {
    Enabled(s, step) && (step.Finish? ==> ReadOnlyStamped(parse, config, s.loader.stamp, s.loader.seen))
  }

  predicate CleanRun<Doc(==)>(parse: Parser<Doc>, config: Config, s: Sys<Doc>, steps: seq<Step>)
    decreases |steps|
  {
    steps == [] || (CleanStep(parse, config, s, steps[0]) && CleanRun(parse, config, Next(parse, config, s, steps[0]), steps[1..]))
  }

  predicate AllEnabled<Doc>(parse: Parser<Doc>, config: Config, s: Sys<Doc>, steps: seq<Step>)
    decreases |steps|
  {
    steps == [] || (Enabled(s, steps[0]) && AllEnabled(parse, config, Next(parse, config, s, steps[0]), steps[1..]))
  }

  function RunSteps<Doc>(parse: Parser<Doc>, config: Config, s: Sys<Doc>, steps: seq<Step>): Sys<Doc>
    requires AllEnabled(parse, config, s, steps)
    decreases |steps|
  {
    if steps == [] then s else RunSteps(parse, config, Next(parse, config, s, steps[0]), steps[1..])
  }

  function Start<Doc>(now: int, files: Files): Sys<Doc> {
    Sys(now, files, None, Idle, None, [], map[], map[])
  }

  lemma {:induction false} RunKeepsInv<Doc>(parse: Parser<Doc>, config: Config, s: Sys<Doc>, steps: seq<Step>)
    requires Inv(parse, config, s) && AllEnabled(parse, config, s, steps)
    ensures Inv(parse, config, RunSteps(parse, config, s, steps))
    decreases |steps|
  {
    hide Inv;
    if steps != [] {
      StepKeepsInv(parse, config, s, steps[0]);
      RunKeepsInv(parse, config, Next(parse, config, s, steps[0]), steps[1..]);
    }
  }

  /** In every reachable state a hit is right exactly when its entry was read from stamped sources only. */
  lemma ReachableHitIsRightExactlyWhen<Doc>(parse: Parser<Doc>, config: Config, now: int, files: Files, steps: seq<Step>)
    requires AllEnabled(parse, config, Start<Doc>(now, files), steps)
    ensures var s := RunSteps(parse, config, Start<Doc>(now, files), steps);
      && (HitsStamp(s.held, StampOf(config, s.files)) ==>
            (ReadOf(parse, config, s.files) == Some(s.held.value.document) <==>
               ReadOnlyStamped(parse, config, s.held.value.stamp, s.seenGood)))
      && (HitsFailed(s.held, StampOf(config, s.files)) ==>
            (ReadOf(parse, config, s.files) == None <==>
               ReadOnlyStamped(parse, config, s.held.value.failed.value, s.seenBad)))
  {
    RunKeepsInv(parse, config, Start<Doc>(now, files), steps);
    HitIsRightExactlyWhen(parse, config, RunSteps(parse, config, Start<Doc>(now, files), steps));
  }

  /** Held and failed entries of a clean run were read from stamped sources only, and every answer so far is uncached. */
  ghost predicate CleanInv<Doc>(parse: Parser<Doc>, config: Config, s: Sys<Doc>) {
    && Inv(parse, config, s)
    && (s.held.Some? ==> s.lastGood == Some(s.held.value.document))
    && (s.held.Some? ==> ReadOnlyStamped(parse, config, s.held.value.stamp, s.seenGood))
    && (s.held.Some? && s.held.value.failed.Some? ==> ReadOnlyStamped(parse, config, s.held.value.failed.value, s.seenBad))
    && forall pair :: pair in s.answers ==> pair.cached == pair.uncached
  }

  lemma CleanStepKeepsCleanInv<Doc>(parse: Parser<Doc>, config: Config, s: Sys<Doc>, step: Step)
    requires CleanInv(parse, config, s) && CleanStep(parse, config, s, step)
    ensures CleanInv(parse, config, Next(parse, config, s, step))
  {
    hide ReadOf, StampOf, Stamped, PartsHold;
    StepKeepsInv(parse, config, s, step);
    if step.Stat? {
      HitIsRightExactlyWhen(parse, config, s);
    }
  }

  /** For every interleaving in which no load read a source its stamp lacks, each answer is the uncached loader's. */
  lemma {:induction false} CleanRunsAnswerAsUncached<Doc>(parse: Parser<Doc>, config: Config, s: Sys<Doc>, steps: seq<Step>)
    requires CleanInv(parse, config, s) && CleanRun(parse, config, s, steps)
    ensures AllEnabled(parse, config, s, steps) && CleanInv(parse, config, RunSteps(parse, config, s, steps))
    decreases |steps|
  {
    if steps != [] {
      CleanStepKeepsCleanInv(parse, config, s, steps[0]);
      CleanRunsAnswerAsUncached(parse, config, Next(parse, config, s, steps[0]), steps[1..]);
    }
  }

  lemma EveryCleanAnswerIsUncached<Doc>(parse: Parser<Doc>, config: Config, now: int, files: Files, steps: seq<Step>)
    requires CleanRun(parse, config, Start<Doc>(now, files), steps)
    ensures AllEnabled(parse, config, Start<Doc>(now, files), steps)
    ensures forall pair :: pair in RunSteps(parse, config, Start<Doc>(now, files), steps).answers ==> pair.cached == pair.uncached
  {
    CleanRunsAnswerAsUncached(parse, config, Start<Doc>(now, files), steps);
  }

  function RaceSteps(): seq<Step> {
    [Stat, Clock, Write("config.toml", Present(0, 1, "x")), Read, Finish, Write("config.toml", Absent), Stat]
  }

  lemma RaceReads(parse: Parser<string>)
    requires parse([]) == Some("default") && parse([("config.toml", "x")]) == Some("x")
    ensures var config, there := Config("config.toml", true, []), map["config.toml" := Present(0, 1, "x")];
      && StampOf(config, map[]) == [] && ReadOf(parse, config, there) == Some("x")
      && StampOf(config, there["config.toml" := Absent]) == []
      && ReadOf(parse, config, there["config.toml" := Absent]) == Some("default")
  {
    var config, there := Config("config.toml", true, []), map["config.toml" := Present(0, 1, "x")];
    var only := ["config.toml"];
    var gone := there["config.toml" := Absent];
    StampOfNothing(map[], only);
    StampOfNothing(gone, only);
    assert Contents(there, only) == [("config.toml", "x")] + Contents(there, []) == [("config.toml", "x")];
    assert At(gone, only[0]).Absent? && Contents(gone, only) == [];
  }

  /**
   * The hypothesis is needed: a config created between the stat and the read, then deleted, is answered for good,
   * because the stamp of no file at all matches and counts as settled.
   */
  lemma AFileCreatedDuringALoadOutlivesItsDeletion(parse: Parser<string>)
    requires parse([]) == Some("default") && parse([("config.toml", "x")]) == Some("x")
    ensures var config, start := Config("config.toml", true, []), Start<string>(0, map[]);
      && AllEnabled(parse, config, start, RaceSteps())
      && RunSteps(parse, config, start, RaceSteps()).answers
           == [Pair(Answered("x"), Answered("x")), Pair(Answered("x"), Answered("default"))]
  {
    hide StampOf, ReadOf, RunSteps, AllEnabled;
    RaceReads(parse);
    var config, s0 := Config("config.toml", true, []), Start<string>(0, map[]);
    var steps := RaceSteps();
    var s1 := Next(parse, config, s0, steps[0]);
    var s2 := Next(parse, config, s1, steps[1]);
    var s3 := Next(parse, config, s2, steps[2]);
    var s4 := Next(parse, config, s3, steps[3]);
    var s5 := Next(parse, config, s4, steps[4]);
    var s6 := Next(parse, config, s5, steps[5]);
    var s7 := Next(parse, config, s6, steps[6]);
    EmptyRun(parse, config, s7, steps[7..]);
    Unroll(parse, config, s6, steps[6..], s7, s7);
    Unroll(parse, config, s5, steps[5..], s6, s7);
    Unroll(parse, config, s4, steps[4..], s5, s7);
    Unroll(parse, config, s3, steps[3..], s4, s7);
    Unroll(parse, config, s2, steps[2..], s3, s7);
    Unroll(parse, config, s1, steps[1..], s2, s7);
    Unroll(parse, config, s0, steps, s1, s7);
  }

  lemma EmptyRun<Doc>(parse: Parser<Doc>, config: Config, s: Sys<Doc>, steps: seq<Step>)
    requires steps == []
    ensures AllEnabled(parse, config, s, steps) && RunSteps(parse, config, s, steps) == s
  {
  }

  lemma {:induction false} StampOfNothing(files: Files, sources: seq<Path>)
    requires forall source :: source in sources ==> At(files, source).Absent?
    ensures StampParts(files, sources) == []
  {
    if sources != [] {
      StampOfNothing(files, sources[1..]);
    }
  }

  /** One step in front of a run. */
  lemma Unroll<Doc>(parse: Parser<Doc>, config: Config, s: Sys<Doc>, steps: seq<Step>, mid: Sys<Doc>, end: Sys<Doc>)
    requires steps != [] && Enabled(s, steps[0]) && Next(parse, config, s, steps[0]) == mid
    requires AllEnabled(parse, config, mid, steps[1..]) && RunSteps(parse, config, mid, steps[1..]) == end
    ensures AllEnabled(parse, config, s, steps) && RunSteps(parse, config, s, steps) == end
  {
  }
}
