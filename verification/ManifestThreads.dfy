/**
 * core/stablemate_core/manifest.py: any number of threads loading manifests through the one cache, against files other
 * processes write. Nothing locks the cache: a load keeps the entry it fetched while others replace or mark it.
 *
 * Each stat, lookup, clock, read and assignment is a step. An answer is compared with that of a loader without a cache,
 * which reads the file at some moment of the load and falls back on the document last good when the load looked it up.
 */
module ManifestThreads {
  import opened Wrappers
  import opened ManifestCache

  type Thread = nat
  type Ref = nat

  datatype File = Absent | Present(mtimeNs: int, size: nat, content: string)

  type Parser<Doc> = string -> Option<Doc>

  function StatOf(file: File): Option<Stamp> {
    if file.Present? then Some(Stamp(file.mtimeNs, file.size)) else None
  }

  function ReadOf<Doc>(parse: Parser<Doc>, file: File): Option<Doc> {
    if file.Present? then parse(file.content) else None
  }

  // ---- the threads ----

  /** A `_Held` object, shared by reference, and the path it was made for. */
  datatype Cell<Doc> = Cell(path: Path, held: Held<Doc>)

  /** What a load does next. */
  datatype At<Doc> =
    | Fetching
    | CheckingFailed
    | CheckingSettled
    | Clocking
    | Reading(readNs: int)
    | Finishing(readNs: int, read: Option<Doc>)
    | Marking(readNs: int)

  /**
   * `good` and `seen` are history: the document last good when the entry was fetched, and what reading the file would
   * have given at each moment of the load.
   */
  datatype Loader<Doc> = Loader(
    path: Path, stat: Option<Stamp>, ref: Option<Ref>, good: Option<Doc>, seen: seq<Option<Doc>>, at: At<Doc>)

  datatype Told<Doc> = Told(loader: Loader<Doc>, answer: Answer<Doc>)

  /** `lastGood` is the uncached loader's memory. */
  datatype Sys<Doc> = Sys(
    now: nat, files: map<Path, File>, heap: map<Ref, Cell<Doc>>, held: map<Path, Ref>, loaders: map<Thread, Loader<Doc>>,
    lastGood: map<Path, Doc>, told: seq<Told<Doc>>)
  {
    function FileAt(path: Path): File {
      if path in files then files[path] else Absent
    }

    /** The object a loader fetched. */
    function Fetched(t: Thread): Held<Doc>
      requires t in loaders && loaders[t].ref.Some? && loaders[t].ref.value in heap
    {
      heap[loaders[t].ref.value].held
    }

    function Move(t: Thread, at: At<Doc>): Sys<Doc>
      requires t in loaders
    {
      this.(loaders := loaders[t := loaders[t].(at := at)])
    }

    function Tell(t: Thread, answer: Answer<Doc>): Sys<Doc>
      requires t in loaders
    {
      this.(loaders := loaders - {t}, told := told + [Told(loaders[t], answer)])
    }

    function Store(ref: Ref, cell: Cell<Doc>): Sys<Doc> {
      this.(heap := heap[ref := cell])
    }
  }

  datatype Step =
    | Tick(ns: nat)
    | Write(path: Path, file: File)
    | Stat(t: Thread, path: Path)
    | Fetch(t: Thread)
    | CheckFailed(t: Thread)
    | CheckSettled(t: Thread)
    | Clock(t: Thread)
    | Read(t: Thread)
    | Finish(t: Thread, made: Ref)
    | Mark(t: Thread)

  /** References lead to objects, and a loader that looks at one has fetched it for a file it could stat. */
  ghost predicate Linked<Doc>(s: Sys<Doc>) {
    && (forall path :: path in s.held ==> s.held[path] in s.heap && s.heap[s.held[path]].path == path)
    && (forall t :: t in s.loaders ==> LoaderLinked(s, s.loaders[t]))
  }

  ghost predicate LoaderLinked<Doc>(s: Sys<Doc>, l: Loader<Doc>) {
    && (l.ref.Some? ==> l.ref.value in s.heap && s.heap[l.ref.value].path == l.path)
    && (l.at.CheckingFailed? || l.at.CheckingSettled? || l.at.Marking? ==> l.ref.Some? && l.stat.Some?)
  }

  /** A write's mtime lags the clock by at most the racy window; a deletion has none. */
  ghost predicate Enabled<Doc>(s: Sys<Doc>, step: Step) {
    Linked(s) &&
    match step
    case Tick(_) => true
    case Write(_, file) => file.Present? ==> file.mtimeNs >= s.now - RACY_NS
    case Stat(t, _) => t !in s.loaders
    case Fetch(t) => t in s.loaders && s.loaders[t].at.Fetching?
    case CheckFailed(t) => t in s.loaders && s.loaders[t].at.CheckingFailed?
    case CheckSettled(t) => t in s.loaders && s.loaders[t].at.CheckingSettled?
    case Clock(t) => t in s.loaders && s.loaders[t].at.Clocking?
    case Read(t) => t in s.loaders && s.loaders[t].at.Reading?
    case Finish(t, made) => t in s.loaders && s.loaders[t].at.Finishing? && made !in s.heap
    case Mark(t) => t in s.loaders && s.loaders[t].at.Marking?
  }

  /** A load sees what its file now holds. */
  function Seeing<Doc>(parse: Parser<Doc>, l: Loader<Doc>, path: Path, file: File): Loader<Doc> {
    if l.path == path then l.(seen := l.seen + [ReadOf(parse, file)]) else l
  }

  function FetchNext<Doc>(s: Sys<Doc>, t: Thread): Sys<Doc>
    requires t in s.loaders
    requires var path := s.loaders[t].path; path in s.held ==> s.held[path] in s.heap
  {
    var l := s.loaders[t];
    var ref := if l.path in s.held then Some(s.held[l.path]) else None;
    var good := if l.path in s.lastGood then Some(s.lastGood[l.path]) else None;
    var fetched := s.(loaders := s.loaders[t := l.(ref := ref, good := good)]);
    if ref.None? || l.stat.None? then fetched.Move(t, Clocking)
    else
      var entry := s.heap[ref.value].held;
      if entry.stamp == l.stat.value && Settled(entry.stamp, entry.readNs) then fetched.Tell(t, Answered(entry.document))
      else fetched.Move(t, CheckingFailed)
  }

  function FinishNext<Doc>(s: Sys<Doc>, t: Thread, made: Ref): Sys<Doc>
    requires t in s.loaders && s.loaders[t].at.Finishing?
    requires s.loaders[t].ref.Some? ==> s.loaders[t].ref.value in s.heap
  {
    var l := s.loaders[t];
    match l.at.read
    case Some(document) =>
      if l.stat.None? then s.Tell(t, Answered(document))
      else
        s.Store(made, Cell(l.path, Held(l.stat.value, document, l.at.readNs, None, 0)))
         .(held := s.held[l.path := made], lastGood := s.lastGood[l.path := document]).Tell(t, Answered(document))
    case None =>
      if l.ref.None? || l.stat.None? then s.Tell(t, Raised)
      else s.Store(l.ref.value, Cell(l.path, s.Fetched(t).(failed := l.stat))).Move(t, Marking(l.at.readNs))
  }

  ghost function Next<Doc>(parse: Parser<Doc>, s: Sys<Doc>, step: Step): Sys<Doc>
    requires Enabled(s, step)
  {
    match step
    case Tick(ns) => s.(now := s.now + ns)
    case Write(path, file) =>
      s.(files := s.files[path := file], loaders := map t | t in s.loaders :: Seeing(parse, s.loaders[t], path, file))
    case Stat(t, path) =>
      var file := s.FileAt(path);
      s.(loaders := s.loaders[t := Loader(path, StatOf(file), None, None, [ReadOf(parse, file)], Fetching)])
    case Fetch(t) => FetchNext(s, t)
    case CheckFailed(t) => s.Move(t, if s.Fetched(t).failed == s.loaders[t].stat then CheckingSettled else Clocking)
    case CheckSettled(t) =>
      if Settled(s.loaders[t].stat.value, s.Fetched(t).failedReadNs) then s.Tell(t, Answered(s.Fetched(t).document))
      else s.Move(t, Clocking)
    case Clock(t) => s.Move(t, Reading(s.now))
    case Read(t) => s.Move(t, Finishing(s.loaders[t].at.readNs, ReadOf(parse, s.FileAt(s.loaders[t].path))))
    case Finish(t, made) => FinishNext(s, t, made)
    case Mark(t) =>
      var l := s.loaders[t];
      s.Store(l.ref.value, Cell(l.path, s.Fetched(t).(failedReadNs := l.at.readNs))).Tell(t, Answered(s.Fetched(t).document))
  }

  ghost predicate Possible<Doc>(parse: Parser<Doc>, s: Sys<Doc>, steps: seq<Step>)
    decreases |steps|
  {
    steps == [] || (Enabled(s, steps[0]) && Possible(parse, Next(parse, s, steps[0]), steps[1..]))
  }

  ghost function RunSteps<Doc>(parse: Parser<Doc>, s: Sys<Doc>, steps: seq<Step>): Sys<Doc>
    requires Possible(parse, s, steps)
    decreases |steps|
  {
    if steps == [] then s else RunSteps(parse, Next(parse, s, steps[0]), steps[1..])
  }

  function Start<Doc>(now: nat, files: map<Path, File>): Sys<Doc> {
    Sys(now, files, map[], map[], map[], map[], [])
  }

  // ---- the law ----

  /** A failing re-read of a file that could be stat'ed keeps the last good document. */
  function UncachedAnswer<Doc>(good: Option<Doc>, stat: Option<Stamp>, read: Option<Doc>): Answer<Doc> {
    if read.Some? then Answered(read.value)
    else if good.Some? && stat.Some? then Answered(good.value)
    else Raised
  }

  /** The answer is the uncached loader's, reading at some moment of the load. */
  ghost predicate IsUncached<Doc>(told: Told<Doc>) {
    exists read :: read in told.loader.seen && told.answer == UncachedAnswer(told.loader.good, told.loader.stat, read)
  }

  /**
   * A read at or after `readNs` gave `read`: so does the file for as long as its mtime has settled by then, and every
   * load that stat'ed such an mtime has seen it.
   */
  ghost predicate Since<Doc>(parse: Parser<Doc>, s: Sys<Doc>, path: Path, readNs: int, read: Option<Doc>) {
    && readNs <= s.now
    && (var file := s.FileAt(path); file.Present? && readNs - file.mtimeNs > RACY_NS ==> ReadOf(parse, file) == read)
    && forall t :: t in s.loaders && s.loaders[t].path == path ==> HasSeen(s.loaders[t], readNs, read)
  }

  ghost predicate HasSeen<Doc>(l: Loader<Doc>, readNs: int, read: Option<Doc>) {
    l.stat.Some? && Settled(l.stat.value, readNs) ==> read in l.seen
  }

  ghost predicate CellOk<Doc>(parse: Parser<Doc>, s: Sys<Doc>, cell: Cell<Doc>) {
    var held := cell.held;
    && Since(parse, s, cell.path, held.readNs, Some(held.document))
    && (if held.failed.Some? then Since(parse, s, cell.path, held.failedReadNs, None) else held.failedReadNs == 0)
  }

  ghost predicate HeldOk<Doc>(s: Sys<Doc>) {
    && s.held.Keys == s.lastGood.Keys
    && forall path :: path in s.held ==> s.held[path] in s.heap && s.lastGood[path] == s.heap[s.held[path]].held.document
  }

  ghost predicate LoaderOk<Doc>(parse: Parser<Doc>, s: Sys<Doc>, l: Loader<Doc>) {
    && LoaderLinked(s, l)
    && ReadOf(parse, s.FileAt(l.path)) in l.seen
    && (!l.at.Fetching? ==> l.good == if l.ref.Some? then Some(s.heap[l.ref.value].held.document) else None)
    && (l.at.CheckingSettled? || l.at.Marking? ==> s.heap[l.ref.value].held.failed.Some?)
    && match l.at
       case Reading(readNs) => 0 <= readNs <= s.now
       case Finishing(readNs, read) => 0 <= readNs && read in l.seen && Since(parse, s, l.path, readNs, read)
       case Marking(readNs) => 0 <= readNs && None in l.seen && Since(parse, s, l.path, readNs, None)
       case _ => true
  }

  ghost predicate Inv<Doc>(parse: Parser<Doc>, s: Sys<Doc>) {
    && Linked(s) && HeldOk(s)
    && (forall ref :: ref in s.heap ==> CellOk(parse, s, s.heap[ref]))
    && (forall t :: t in s.loaders ==> LoaderOk(parse, s, s.loaders[t]))
    && (forall told :: told in s.told ==> IsUncached(told))
  }

  // ---- what was read stays known ----

  /** A loader sees at least what it saw before, of the same file, stat'ed the same. */
  ghost predicate SeesMore<Doc>(before: Loader<Doc>, after: Loader<Doc>) {
    && after.path == before.path && after.stat == before.stat
    && forall read :: read in before.seen ==> read in after.seen
  }

  /** Only the loader of one thread moved, or told its answer. */
  ghost predicate OnlyMoved<Doc>(s: Sys<Doc>, s': Sys<Doc>, t: Thread)
    requires t in s.loaders
  {
    && s'.files == s.files && s'.now == s.now
    && if t in s'.loaders then
         var l, l' := s.loaders[t], s'.loaders[t];
         s'.loaders == s.loaders[t := l'] && l'.path == l.path && l'.stat == l.stat && l'.seen == l.seen
       else s'.loaders == s.loaders - {t}
  }

  lemma FetchMoves<Doc>(s: Sys<Doc>, t: Thread)
    requires t in s.loaders
    requires var path := s.loaders[t].path; path in s.held ==> s.held[path] in s.heap
    ensures OnlyMoved(s, FetchNext(s, t), t)
  {
    var s' := FetchNext(s, t);
    if t in s'.loaders {
      assert s'.loaders == s.loaders[t := s'.loaders[t]];
    } else {
      assert s'.loaders == s.loaders - {t};
    }
  }

  lemma FinishMoves<Doc>(s: Sys<Doc>, t: Thread, made: Ref)
    requires t in s.loaders && s.loaders[t].at.Finishing?
    requires s.loaders[t].ref.Some? ==> s.loaders[t].ref.value in s.heap
    ensures OnlyMoved(s, FinishNext(s, t, made), t)
  {
  }

  /** A loader's own step touches no file and no other loader. */
  lemma ThreadsMove<Doc>(parse: Parser<Doc>, s: Sys<Doc>, step: Step)
    requires Enabled(s, step) && !step.Tick? && !step.Write? && !step.Stat?
    ensures step.t in s.loaders && OnlyMoved(s, Next(parse, s, step), step.t)
  {
    hide StatOf, ReadOf, Settled, FetchNext, FinishNext;
    match step {
      case Fetch(t) => FetchMoves(s, t);
      case Finish(t, made) => assert LoaderLinked(s, s.loaders[t]); FinishMoves(s, t, made);
      case _ =>
    }
  }

  lemma LoadersSeeMore<Doc>(parse: Parser<Doc>, s: Sys<Doc>, step: Step, t: Thread)
    requires Enabled(s, step) && t in Next(parse, s, step).loaders && !(step.Stat? && step.t == t)
    ensures t in s.loaders && SeesMore(s.loaders[t], Next(parse, s, step).loaders[t])
  {
    hide Linked, StatOf, ReadOf, FetchNext, FinishNext;
    if !step.Tick? && !step.Write? && !step.Stat? {
      ThreadsMove(parse, s, step);
      hide Next, Enabled;
    }
  }

  /** No write after `readNs` leaves an mtime that had settled by then. */
  lemma SinceKeeps<Doc>(parse: Parser<Doc>, s: Sys<Doc>, step: Step, path: Path, readNs: int, read: Option<Doc>)
    requires Enabled(s, step) && Since(parse, s, path, readNs, read)
    ensures Since(parse, Next(parse, s, step), path, readNs, read)
  {
    var s' := Next(parse, s, step);
    FileKeeps(parse, s, step, path, readNs, read);
    forall t | t in s'.loaders && s'.loaders[t].path == path ensures HasSeen(s'.loaders[t], readNs, read) {
      if step.Stat? && step.t == t {
        hide Linked;
      } else {
        LoadersSeeMore(parse, s, step, t);
        assert HasSeen(s.loaders[t], readNs, read) && SeesMore(s.loaders[t], s'.loaders[t]);
        hide Next, Enabled;
      }
    }
    hide Next, Enabled;
  }

  lemma FileKeeps<Doc>(parse: Parser<Doc>, s: Sys<Doc>, step: Step, path: Path, readNs: int, read: Option<Doc>)
    requires Enabled(s, step) && readNs <= s.now
    requires var file := s.FileAt(path); file.Present? && readNs - file.mtimeNs > RACY_NS ==> ReadOf(parse, file) == read
    ensures var s' := Next(parse, s, step);
      var file := s'.FileAt(path);
      readNs <= s'.now && (file.Present? && readNs - file.mtimeNs > RACY_NS ==> ReadOf(parse, file) == read)
  {
    hide Linked, ReadOf, FetchNext, FinishNext;
    if !step.Tick? && !step.Write? && !step.Stat? {
      ThreadsMove(parse, s, step);
      hide Next, Enabled;
    }
  }

  lemma SinceEarlier<Doc>(parse: Parser<Doc>, s: Sys<Doc>, path: Path, readNs: int, earlier: int, read: Option<Doc>)
    requires Since(parse, s, path, readNs, read) && earlier <= readNs
    ensures Since(parse, s, path, earlier, read)
  {
    forall t | t in s.loaders && s.loaders[t].path == path ensures HasSeen(s.loaders[t], earlier, read) {
      assert HasSeen(s.loaders[t], readNs, read);
    }
  }

  /** An object a step leaves in place keeps its path and document, and once it was marked it stays marked. */
  lemma CellsStay<Doc>(parse: Parser<Doc>, s: Sys<Doc>, step: Step, ref: Ref)
    requires Enabled(s, step) && ref in s.heap
    ensures ref in Next(parse, s, step).heap
    ensures var cell, cell' := s.heap[ref], Next(parse, s, step).heap[ref];
      && cell'.path == cell.path && cell'.held.document == cell.held.document
      && (cell.held.failed.Some? ==> cell'.held.failed.Some?)
  {
    hide StatOf, ReadOf, Settled;
    assert step.Finish? ==> LoaderLinked(s, s.loaders[step.t]);
  }

  lemma CellKeeps<Doc>(parse: Parser<Doc>, s: Sys<Doc>, step: Step, cell: Cell<Doc>)
    requires Enabled(s, step) && CellOk(parse, s, cell)
    ensures CellOk(parse, Next(parse, s, step), cell)
  {
    hide Next, Since, Enabled;
    SinceKeeps(parse, s, step, cell.path, cell.held.readNs, Some(cell.held.document));
    if cell.held.failed.Some? {
      SinceKeeps(parse, s, step, cell.path, cell.held.failedReadNs, None);
    }
  }

  /** The object a finish makes or marks, before its `failed_read_ns` is set. */
  lemma FinishedCellOk<Doc>(parse: Parser<Doc>, s: Sys<Doc>, t: Thread, made: Ref)
    requires Inv(parse, s) && Enabled(s, Finish(t, made))
    ensures var l := s.loaders[t];
      && (l.at.read.Some? && l.stat.Some? ==> CellOk(parse, s, Cell(l.path, Held(l.stat.value, l.at.read.value, l.at.readNs, None, 0))))
      && (l.at.read.None? && l.stat.Some? && l.ref.Some? ==>
            CellOk(parse, s, Cell(l.path, s.Fetched(t).(failed := l.stat))))
  {
    hide Since;
    var l := s.loaders[t];
    assert LoaderOk(parse, s, l);
    if l.at.read.None? && l.stat.Some? && l.ref.Some? {
      assert CellOk(parse, s, s.heap[l.ref.value]);
      if s.Fetched(t).failed.None? {
        SinceEarlier(parse, s, l.path, l.at.readNs, 0, None);
      }
    }
  }

  lemma MarkedCellOk<Doc>(parse: Parser<Doc>, s: Sys<Doc>, t: Thread)
    requires Inv(parse, s) && Enabled(s, Mark(t))
    ensures CellOk(parse, s, Cell(s.loaders[t].path, s.Fetched(t).(failedReadNs := s.loaders[t].at.readNs)))
  {
    hide Since;
    assert LoaderOk(parse, s, s.loaders[t]) && CellOk(parse, s, s.heap[s.loaders[t].ref.value]);
  }

  lemma StepKeepsCells<Doc>(parse: Parser<Doc>, s: Sys<Doc>, step: Step, ref: Ref)
    requires Inv(parse, s) && Enabled(s, step) && ref in Next(parse, s, step).heap
    ensures CellOk(parse, Next(parse, s, step), Next(parse, s, step).heap[ref])
  {
    hide CellOk, HeldOk, LoaderOk;
    var cell := Next(parse, s, step).heap[ref];
    if ref in s.heap && s.heap[ref] == cell {
      assert CellOk(parse, s, cell);
    } else {
      CellMoves(parse, s, step, ref);
      if step.Finish? {
        FinishedCellOk(parse, s, step.t, step.made);
      } else {
        MarkedCellOk(parse, s, step.t);
      }
    }
    hide Inv, Next, Enabled;
    CellKeeps(parse, s, step, cell);
  }

  /** An object is as it was, or a finish made or marked it, or a mark completed it. */
  lemma CellMoves<Doc>(parse: Parser<Doc>, s: Sys<Doc>, step: Step, ref: Ref)
    requires Enabled(s, step) && ref in Next(parse, s, step).heap
    requires !(ref in s.heap && s.heap[ref] == Next(parse, s, step).heap[ref])
    ensures step.Finish? || step.Mark?
    ensures var cell := Next(parse, s, step).heap[ref];
      match step
      case Finish(t, _) =>
        var l := s.loaders[t];
        && l.stat.Some?
        && if l.at.read.Some? then cell == Cell(l.path, Held(l.stat.value, l.at.read.value, l.at.readNs, None, 0))
           else l.ref.Some? && cell == Cell(l.path, s.Fetched(t).(failed := l.stat))
      case Mark(t) => cell == Cell(s.loaders[t].path, s.Fetched(t).(failedReadNs := s.loaders[t].at.readNs))
      case _ => true
  {
    if step.Finish? {
      assert LoaderLinked(s, s.loaders[step.t]);
      FinishMovesCell(s, step.t, step.made, ref);
      hide FinishNext, Linked;
    } else {
      hide Linked, StatOf, ReadOf, Settled;
    }
  }

  lemma FinishMovesCell<Doc>(s: Sys<Doc>, t: Thread, made: Ref, ref: Ref)
    requires t in s.loaders && s.loaders[t].at.Finishing? && LoaderLinked(s, s.loaders[t]) && ref in FinishNext(s, t, made).heap
    requires !(ref in s.heap && s.heap[ref] == FinishNext(s, t, made).heap[ref])
    ensures var l, cell := s.loaders[t], FinishNext(s, t, made).heap[ref];
      && l.stat.Some?
      && if l.at.read.Some? then cell == Cell(l.path, Held(l.stat.value, l.at.read.value, l.at.readNs, None, 0))
         else l.ref.Some? && cell == Cell(l.path, s.Fetched(t).(failed := l.stat))
  {
  }

  // ---- what a loader knows ----

  /** What the file holds now, its loads have seen. */
  ghost predicate SeesNow<Doc>(parse: Parser<Doc>, s: Sys<Doc>, l: Loader<Doc>) {
    ReadOf(parse, s.FileAt(l.path)) in l.seen
  }

  lemma SeenKeeps<Doc>(parse: Parser<Doc>, s: Sys<Doc>, step: Step, t: Thread)
    requires Enabled(s, step) && t in Next(parse, s, step).loaders
    requires t in s.loaders && !step.Stat? ==> SeesNow(parse, s, s.loaders[t])
    requires t in s.loaders && step.Stat? && step.t != t ==> SeesNow(parse, s, s.loaders[t])
    ensures SeesNow(parse, Next(parse, s, step), Next(parse, s, step).loaders[t])
  {
    hide Linked, StatOf, ReadOf, FetchNext, FinishNext;
    if !step.Tick? && !step.Write? && !step.Stat? {
      ThreadsMove(parse, s, step);
      hide Next, Enabled;
    }
  }

  /** A loader that does not move keeps what it knows. */
  lemma OtherLoaderKeeps<Doc>(parse: Parser<Doc>, s: Sys<Doc>, step: Step, t: Thread)
    requires Enabled(s, step) && t in s.loaders && t in Next(parse, s, step).loaders
    requires !(step.Stat? && step.t == t) && LoaderOk(parse, s, s.loaders[t])
    requires var l, l' := s.loaders[t], Next(parse, s, step).loaders[t]; l' == l.(seen := l'.seen)
    ensures LoaderOk(parse, Next(parse, s, step), Next(parse, s, step).loaders[t])
  {
    hide Linked, Settled, FetchNext, FinishNext, Since;
    var l := s.loaders[t];
    SeenKeeps(parse, s, step, t);
    LoadersSeeMore(parse, s, step, t);
    if l.ref.Some? {
      CellsStay(parse, s, step, l.ref.value);
    }
    if l.at.Finishing? {
      SinceKeeps(parse, s, step, l.path, l.at.readNs, l.at.read);
    } else if l.at.Marking? {
      SinceKeeps(parse, s, step, l.path, l.at.readNs, None);
    }
    TimeGoesOn(parse, s, step);
    hide Next, Enabled;
  }

  lemma TimeGoesOn<Doc>(parse: Parser<Doc>, s: Sys<Doc>, step: Step)
    requires Enabled(s, step)
    ensures s.now <= Next(parse, s, step).now
  {
    hide Linked, FetchNext, FinishNext;
    if !step.Tick? && !step.Write? && !step.Stat? {
      ThreadsMove(parse, s, step);
      hide Next, Enabled;
    }
  }

  lemma StattedLoaderOk<Doc>(parse: Parser<Doc>, s: Sys<Doc>, t: Thread, path: Path)
    requires Enabled(s, Stat(t, path))
    ensures var s' := Next(parse, s, Stat(t, path)); LoaderOk(parse, s', s'.loaders[t])
  {
    hide Linked, StatOf, ReadOf;
  }

  lemma FetchingLoaderOk<Doc>(parse: Parser<Doc>, s: Sys<Doc>, t: Thread)
    requires Enabled(s, Fetch(t)) && HeldOk(s) && LoaderOk(parse, s, s.loaders[t])
    requires t in Next(parse, s, Fetch(t)).loaders
    ensures var s' := Next(parse, s, Fetch(t)); LoaderOk(parse, s', s'.loaders[t])
  {
    hide StatOf, ReadOf, Settled, Since;
  }

  lemma CheckingLoaderOk<Doc>(parse: Parser<Doc>, s: Sys<Doc>, step: Step)
    requires (step.CheckFailed? || step.CheckSettled? || step.Clock?)
    requires Enabled(s, step) && LoaderOk(parse, s, s.loaders[step.t])
    requires step.t in Next(parse, s, step).loaders
    ensures var s' := Next(parse, s, step); LoaderOk(parse, s', s'.loaders[step.t])
  {
    hide Linked, StatOf, ReadOf, Settled, Since;
  }

  lemma FinishingLoaderOk<Doc>(parse: Parser<Doc>, s: Sys<Doc>, t: Thread, made: Ref)
    requires Enabled(s, Finish(t, made)) && LoaderOk(parse, s, s.loaders[t])
    requires t in Next(parse, s, Finish(t, made)).loaders
    ensures var s' := Next(parse, s, Finish(t, made)); LoaderOk(parse, s', s'.loaders[t])
  {
    hide Linked, StatOf, ReadOf, Settled, Since;
    SinceKeeps(parse, s, Finish(t, made), s.loaders[t].path, s.loaders[t].at.readNs, s.loaders[t].at.read);
  }

  lemma ReadingLoaderOk<Doc>(parse: Parser<Doc>, s: Sys<Doc>, t: Thread)
    requires Inv(parse, s) && Enabled(s, Read(t))
    ensures var s' := Next(parse, s, Read(t)); LoaderOk(parse, s', s'.loaders[t])
  {
    ReadIsSince(parse, s, t);
    assert LoaderOk(parse, s, s.loaders[t]);
    hide Inv, StatOf, ReadOf, Settled, Since;
  }

  lemma OwnLoaderKeeps<Doc>(parse: Parser<Doc>, s: Sys<Doc>, step: Step)
    requires Inv(parse, s) && Enabled(s, step)
    requires !step.Tick? && !step.Write? && step.t in Next(parse, s, step).loaders
    ensures var s' := Next(parse, s, step); LoaderOk(parse, s', s'.loaders[step.t])
  {
    if !step.Stat? {
      assert step.t in s.loaders && LoaderOk(parse, s, s.loaders[step.t]);
    }
    hide Linked, LoaderOk, HeldOk, Next;
    match step {
      case Stat(t, path) => StattedLoaderOk(parse, s, t, path);
      case Fetch(t) => FetchingLoaderOk(parse, s, t);
      case Read(t) => ReadingLoaderOk(parse, s, t);
      case Finish(t, made) => FinishingLoaderOk(parse, s, t, made);
      case Mark(t) => MarkedLoaderIsGone(parse, s, t);
      case _ => CheckingLoaderOk(parse, s, step);
    }
  }

  lemma MarkedLoaderIsGone<Doc>(parse: Parser<Doc>, s: Sys<Doc>, t: Thread)
    requires Enabled(s, Mark(t))
    ensures t !in Next(parse, s, Mark(t)).loaders
  {
    hide Linked;
  }

  lemma StepKeepsLoaders<Doc>(parse: Parser<Doc>, s: Sys<Doc>, step: Step, t: Thread)
    requires Inv(parse, s) && Enabled(s, step) && t in Next(parse, s, step).loaders
    ensures var s' := Next(parse, s, step); LoaderOk(parse, s', s'.loaders[t])
  {
    if !step.Tick? && !step.Write? && step.t == t {
      OwnLoaderKeeps(parse, s, step);
    } else {
      OthersStay(parse, s, step, t);
      assert LoaderOk(parse, s, s.loaders[t]);
      hide Inv, Next, LoaderOk;
      OtherLoaderKeeps(parse, s, step, t);
    }
  }

  lemma OthersStay<Doc>(parse: Parser<Doc>, s: Sys<Doc>, step: Step, t: Thread)
    requires Enabled(s, step) && t in Next(parse, s, step).loaders && !(!step.Tick? && !step.Write? && step.t == t)
    ensures t in s.loaders && var l, l' := s.loaders[t], Next(parse, s, step).loaders[t]; l' == l.(seen := l'.seen)
  {
    hide Linked, StatOf, ReadOf, FetchNext, FinishNext;
    if !step.Tick? && !step.Write? && !step.Stat? {
      ThreadsMove(parse, s, step);
      hide Next, Enabled;
    }
  }

  /** What a read finds, every load of the file has seen. */
  lemma ReadIsSince<Doc>(parse: Parser<Doc>, s: Sys<Doc>, t: Thread)
    requires Inv(parse, s) && Enabled(s, Read(t))
    ensures var l := s.loaders[t]; Since(parse, Next(parse, s, Read(t)), l.path, l.at.readNs, ReadOf(parse, s.FileAt(l.path)))
  {
    hide CellOk, HeldOk;
    var l := s.loaders[t];
    assert LoaderOk(parse, s, l);
    forall u | u in s.loaders && s.loaders[u].path == l.path
      ensures HasSeen(s.loaders[u], l.at.readNs, ReadOf(parse, s.FileAt(l.path)))
    {
      assert LoaderOk(parse, s, s.loaders[u]);
    }
    assert Since(parse, s, l.path, l.at.readNs, ReadOf(parse, s.FileAt(l.path)));
    SinceKeeps(parse, s, Read(t), l.path, l.at.readNs, ReadOf(parse, s.FileAt(l.path)));
  }

  // ---- what is answered ----

  /** What was told before, and an answer that is the uncached loader's. */
  ghost predicate TellsRight<Doc>(s: Sys<Doc>, s': Sys<Doc>) {
    forall told :: told in s'.told ==> told in s.told || IsUncached(told)
  }

  /** A hit on the stamp: the entry is the last good document, and the load has seen it in the file. */
  lemma FetchTellsRight<Doc>(parse: Parser<Doc>, s: Sys<Doc>, t: Thread)
    requires Inv(parse, s) && Enabled(s, Fetch(t))
    ensures TellsRight(s, Next(parse, s, Fetch(t)))
  {
    hide StatOf, ReadOf;
    var l, s' := s.loaders[t], FetchNext(s, t);
    if s'.told != s.told {
      var held := s.heap[s.held[l.path]].held;
      assert CellOk(parse, s, s.heap[s.held[l.path]]) && HasSeen(l, held.readNs, Some(held.document));
      assert Some(held.document) in l.seen;
    }
  }

  /** A hit on `failed`: the load has seen the file fail, and its entry is what was last good. */
  lemma CheckTellsRight<Doc>(parse: Parser<Doc>, s: Sys<Doc>, t: Thread)
    requires Inv(parse, s) && Enabled(s, CheckSettled(t))
    ensures TellsRight(s, Next(parse, s, CheckSettled(t)))
  {
    hide StatOf, ReadOf, HeldOk;
    var l := s.loaders[t];
    assert LoaderOk(parse, s, l);
    if Settled(l.stat.value, s.Fetched(t).failedReadNs) {
      assert CellOk(parse, s, s.heap[l.ref.value]) && HasSeen(l, s.Fetched(t).failedReadNs, None);
      assert None in l.seen;
    }
  }

  lemma FinishTellsRight<Doc>(parse: Parser<Doc>, s: Sys<Doc>, t: Thread, made: Ref)
    requires Enabled(s, Finish(t, made)) && LoaderOk(parse, s, s.loaders[t])
    ensures TellsRight(s, Next(parse, s, Finish(t, made)))
  {
    hide StatOf, ReadOf, Settled, Linked, Since;
  }

  lemma MarkTellsRight<Doc>(parse: Parser<Doc>, s: Sys<Doc>, t: Thread)
    requires Enabled(s, Mark(t)) && LoaderOk(parse, s, s.loaders[t])
    ensures TellsRight(s, Next(parse, s, Mark(t)))
  {
    hide StatOf, ReadOf, Settled, Linked, Since;
    assert None in s.loaders[t].seen;
  }

  lemma StepTellsRight<Doc>(parse: Parser<Doc>, s: Sys<Doc>, step: Step)
    requires Inv(parse, s) && Enabled(s, step)
    ensures TellsRight(s, Next(parse, s, step))
  {
    if step.Finish? || step.Mark? {
      assert LoaderOk(parse, s, s.loaders[step.t]);
    }
    hide CellOk, LoaderOk, HeldOk, Linked, IsUncached, FetchNext, FinishNext;
    match step {
      case Fetch(t) => FetchTellsRight(parse, s, t);
      case CheckSettled(t) => CheckTellsRight(parse, s, t);
      case Finish(t, made) => FinishTellsRight(parse, s, t, made);
      case Mark(t) => MarkTellsRight(parse, s, t);
      case _ =>
    }
  }

  // ---- every step keeps the law ----

  ghost predicate HeldLinked<Doc>(s: Sys<Doc>) {
    HeldOk(s) && forall path :: path in s.held ==> s.heap[s.held[path]].path == path
  }

  lemma FinishKeepsHeld<Doc>(s: Sys<Doc>, t: Thread, made: Ref)
    requires HeldLinked(s) && t in s.loaders && s.loaders[t].at.Finishing? && made !in s.heap
    requires LoaderLinked(s, s.loaders[t])
    ensures HeldLinked(FinishNext(s, t, made))
  {
  }

  lemma HeldStays<Doc>(parse: Parser<Doc>, s: Sys<Doc>, step: Step)
    requires Enabled(s, step) && !step.Finish?
    ensures Next(parse, s, step).held == s.held && Next(parse, s, step).lastGood == s.lastGood
  {
    hide Linked, StatOf, ReadOf, Settled;
  }

  lemma StepKeepsHeld<Doc>(parse: Parser<Doc>, s: Sys<Doc>, step: Step)
    requires HeldLinked(s) && Enabled(s, step)
    ensures HeldLinked(Next(parse, s, step))
  {
    if step.Finish? {
      assert LoaderLinked(s, s.loaders[step.t]);
      FinishKeepsHeld(s, step.t, step.made);
      hide FinishNext, HeldLinked;
    } else {
      HeldStays(parse, s, step);
      forall path | path in s.held ensures s.held[path] in Next(parse, s, step).heap {
        CellsStay(parse, s, step, s.held[path]);
      }
      forall path | path in s.held
        ensures Next(parse, s, step).heap[s.held[path]].path == path
        ensures Next(parse, s, step).heap[s.held[path]].held.document == s.lastGood[path]
      {
        CellsStay(parse, s, step, s.held[path]);
      }
      hide Next, Enabled;
    }
  }

  lemma StepKeepsInv<Doc>(parse: Parser<Doc>, s: Sys<Doc>, step: Step)
    requires Inv(parse, s) && Enabled(s, step)
    ensures Inv(parse, Next(parse, s, step))
  {
    hide CellOk, Next, Enabled, IsUncached, Since;
    var s' := Next(parse, s, step);
    StepKeepsHeld(parse, s, step);
    StepTellsRight(parse, s, step);
    forall ref | ref in s'.heap ensures CellOk(parse, s', s'.heap[ref]) {
      StepKeepsCells(parse, s, step, ref);
    }
    forall t | t in s'.loaders ensures LoaderOk(parse, s', s'.loaders[t]) {
      StepKeepsLoaders(parse, s, step, t);
    }
  }

  lemma {:induction false} RunKeepsInv<Doc>(parse: Parser<Doc>, s: Sys<Doc>, steps: seq<Step>)
    requires Inv(parse, s) && Possible(parse, s, steps)
    ensures Inv(parse, RunSteps(parse, s, steps))
    decreases |steps|
  {
    if steps != [] {
      hide Inv, Next, Enabled;
      StepKeepsInv(parse, s, steps[0]);
      RunKeepsInv(parse, Next(parse, s, steps[0]), steps[1..]);
    }
  }

  /**
   * For every interleaving of any number of loads with each other and with writes whose mtime lags the clock by at most
   * two seconds: each load answers as a loader without a cache that reads the file at some moment of that load.
   */
  lemma EveryAnswerIsUncached<Doc>(parse: Parser<Doc>, now: nat, files: map<Path, File>, steps: seq<Step>)
    requires Possible(parse, Start<Doc>(now, files), steps)
    ensures forall told :: told in RunSteps(parse, Start<Doc>(now, files), steps).told ==> IsUncached(told)
  {
    RunKeepsInv(parse, Start<Doc>(now, files), steps);
  }

  /** Of a load during which no write changed what the file reads as, that is the one answer reading it would give. */
  lemma AnUndisturbedLoadIsUncached<Doc>(told: Told<Doc>, read: Option<Doc>)
    requires IsUncached(told) && forall other :: other in told.loader.seen ==> other == read
    ensures told.answer == UncachedAnswer(told.loader.good, told.loader.stat, read)
  {
  }

  predicate HitsNow<Doc>(held: Held<Doc>, file: File) {
    file.Present? && held.stamp == StatOf(file).value && Settled(held.stamp, held.readNs)
  }

  predicate HitsFailedNow<Doc>(held: Held<Doc>, file: File) {
    file.Present? && held.failed == StatOf(file) && Settled(held.failed.value, held.failedReadNs)
  }

  /** Whichever entry a thread still has, a hit on its stamp means the file now reads as that, one on `failed` that it fails. */
  lemma HitsReflectTheContent<Doc>(parse: Parser<Doc>, now: nat, files: map<Path, File>, steps: seq<Step>, ref: Ref)
    requires Possible(parse, Start<Doc>(now, files), steps)
    requires ref in RunSteps(parse, Start<Doc>(now, files), steps).heap
    ensures var s := RunSteps(parse, Start<Doc>(now, files), steps);
      var cell := s.heap[ref];
      && (HitsNow(cell.held, s.FileAt(cell.path)) ==> ReadOf(parse, s.FileAt(cell.path)) == Some(cell.held.document))
      && (HitsFailedNow(cell.held, s.FileAt(cell.path)) ==> ReadOf(parse, s.FileAt(cell.path)) == None)
  {
    RunKeepsInv(parse, Start<Doc>(now, files), steps);
    var s := RunSteps(parse, Start<Doc>(now, files), steps);
    assert CellOk(parse, s, s.heap[ref]);
  }

  // ---- a load by itself ----

  /** The cache as one load by itself finds it. */
  function Entries<Doc>(s: Sys<Doc>): map<Path, Held<Doc>> {
    map path | path in s.held && s.held[path] in s.heap :: s.heap[s.held[path]].held
  }

  /** The load has just fetched the entry now held. */
  ghost predicate IsCurrent<Doc>(s: Sys<Doc>, t: Thread) {
    t in s.loaders &&
    s.loaders[t].ref == if s.loaders[t].path in s.held then Some(s.held[s.loaders[t].path]) else None
  }

  ghost predicate Leaves<Doc>(s: Sys<Doc>, s': Sys<Doc>, t: Thread, spec: (map<Path, Held<Doc>>, Answer<Doc>)) {
    && t in s.loaders && t !in s'.loaders
    && Entries(s') == spec.0
    && |s'.told| == |s.told| + 1 && s'.told[|s.told|].answer == spec.1
  }

  lemma EntryMade<Doc>(s: Sys<Doc>, path: Path, made: Ref, held: Held<Doc>)
    requires HeldLinked(s) && made !in s.heap
    ensures Entries(s.Store(made, Cell(path, held)).(held := s.held[path := made])) == Entries(s)[path := held]
  {
    var s' := s.Store(made, Cell(path, held)).(held := s.held[path := made]);
    assert Entries(s').Keys == Entries(s).Keys + {path};
  }

  lemma EntryStored<Doc>(s: Sys<Doc>, path: Path, held: Held<Doc>)
    requires HeldLinked(s) && path in s.held
    ensures Entries(s.Store(s.held[path], Cell(path, held))) == Entries(s)[path := held]
  {
    var s' := s.Store(s.held[path], Cell(path, held));
    assert Entries(s').Keys == Entries(s).Keys;
    assert forall other :: other in s.held && s.held[other] == s.held[path] ==> other == path;
  }

  lemma SameEntries<Doc>(s: Sys<Doc>, s': Sys<Doc>)
    requires s'.heap == s.heap && s'.held == s.held
    ensures Entries(s') == Entries(s)
  {
  }

  /** A finish that ends the load leaves what the specification of a miss says. */
  lemma FinishIsSpec<Doc>(s: Sys<Doc>, t: Thread, made: Ref)
    requires HeldLinked(s) && IsCurrent(s, t) && s.loaders[t].at.Finishing? && made !in s.heap
    requires t !in FinishNext(s, t, made).loaders
    ensures var l := s.loaders[t];
      Leaves(s, FinishNext(s, t, made), t, MissSpec(Entries(s), l.path, l.stat, l.at.readNs, l.at.read))
  {
    hide Entries;
    var l, s' := s.loaders[t], FinishNext(s, t, made);
    EntryKeys(s);
    hide HeldOk;
    if l.at.read.Some? && l.stat.Some? {
      var held := Held(l.stat.value, l.at.read.value, l.at.readNs, None, 0);
      EntryMade(s, l.path, made, held);
      SameEntries(s.Store(made, Cell(l.path, held)).(held := s.held[l.path := made]), s');
    } else {
      SameEntries(s, s');
    }
  }

  lemma EntryKeys<Doc>(s: Sys<Doc>)
    requires HeldOk(s)
    ensures Entries(s).Keys == s.held.Keys
    ensures forall path :: path in s.held ==> Entries(s)[path] == s.heap[s.held[path]].held
  {
  }

  /** So does one that marks the entry, once the mark is complete. */
  lemma MarkIsSpec<Doc>(s: Sys<Doc>, t: Thread, made: Ref)
    requires HeldLinked(s) && IsCurrent(s, t) && s.loaders[t].at.Finishing? && made !in s.heap
    requires t in FinishNext(s, t, made).loaders
    ensures var l, s' := s.loaders[t], FinishNext(s, t, made);
      && s'.loaders[t] == l.(at := Marking(l.at.readNs)) && s'.told == s.told && l.ref.Some? && l.ref.value in s'.heap
      && var marked := s'.Store(l.ref.value, Cell(l.path, s'.Fetched(t).(failedReadNs := l.at.readNs)));
         Leaves(s, marked.Tell(t, Answered(s'.Fetched(t).document)), t,
                MissSpec(Entries(s), l.path, l.stat, l.at.readNs, l.at.read))
  {
    hide Entries;
    var l, s' := s.loaders[t], FinishNext(s, t, made);
    var held := s.Fetched(t).(failed := l.stat, failedReadNs := l.at.readNs);
    var marked := s'.Store(l.ref.value, Cell(l.path, s'.Fetched(t).(failedReadNs := l.at.readNs)));
    EntryKeys(s);
    EntryStored(s, l.path, held);
    var stored := s.Store(l.ref.value, Cell(l.path, held));
    assert marked.heap == stored.heap && marked.held == stored.held;
    SameEntries(stored, marked.Tell(t, Answered(s'.Fetched(t).document)));
  }

  predicate IsOwn(step: Step, t: Thread) {
    !step.Tick? && !step.Write? && step.t == t
  }

  /** The thread's own steps, with no other between them, end in that cache and that answer. */
  ghost predicate EndsBy<Doc>(parse: Parser<Doc>, s: Sys<Doc>, t: Thread, made: Ref, steps: seq<Step>, spec: (map<Path, Held<Doc>>, Answer<Doc>)) {
    && Possible(parse, s, steps) && (forall step :: step in steps ==> IsOwn(step, t))
    && var end := RunSteps(parse, s, steps);
      && end.loaders == s.loaders - {t} && end.files == s.files && end.now == s.now
      && Entries(end) == spec.0 && end.heap.Keys <= s.heap.Keys + {made}
      && |end.told| == |s.told| + 1 && end.told[|s.told|].answer == spec.1
  }

  ghost predicate Ends<Doc>(parse: Parser<Doc>, s: Sys<Doc>, t: Thread, made: Ref, spec: (map<Path, Held<Doc>>, Answer<Doc>)) {
    exists steps :: EndsBy(parse, s, t, made, steps, spec)
  }

  /** An own step of a thread touches no file, no other loader and no object but the one it makes. */
  ghost predicate Alone<Doc>(s: Sys<Doc>, s': Sys<Doc>, t: Thread, made: Ref) {
    && s'.files == s.files && s'.now == s.now
    && s'.loaders - {t} == s.loaders - {t} && s'.heap.Keys <= s.heap.Keys + {made}
  }

  lemma OwnStepsAreAlone<Doc>(parse: Parser<Doc>, s: Sys<Doc>, step: Step, t: Thread, made: Ref)
    requires Enabled(s, step) && IsOwn(step, t) && (step.Finish? ==> step.made == made)
    ensures Alone(s, Next(parse, s, step), t, made)
  {
    if step.Finish? {
      assert LoaderLinked(s, s.loaders[t]);
      FinishMoves(s, t, made);
      hide Linked, LoaderLinked, StatOf, ReadOf, Settled;
    } else {
      HeapKeysStay(parse, s, step, t);
      if !step.Stat? {
        ThreadsMove(parse, s, step);
        hide Next, Enabled;
      }
    }
  }

  lemma HeapKeysStay<Doc>(parse: Parser<Doc>, s: Sys<Doc>, step: Step, t: Thread)
    requires Enabled(s, step) && IsOwn(step, t) && !step.Finish?
    ensures Next(parse, s, step).heap.Keys <= s.heap.Keys
  {
    if step.Mark? {
      assert LoaderLinked(s, s.loaders[t]);
    }
    hide Linked, StatOf, ReadOf, Settled;
  }

  lemma EndsAfter<Doc>(parse: Parser<Doc>, s: Sys<Doc>, t: Thread, made: Ref, step: Step, spec: (map<Path, Held<Doc>>, Answer<Doc>))
    requires Enabled(s, step) && IsOwn(step, t) && (step.Finish? ==> step.made == made)
    requires Next(parse, s, step).told == s.told && Ends(parse, Next(parse, s, step), t, made, spec)
    ensures Ends(parse, s, t, made, spec)
  {
    hide Next, Enabled, Entries;
    OwnStepsAreAlone(parse, s, step, t, made);
    var rest :| EndsBy(parse, Next(parse, s, step), t, made, rest, spec);
    assert ([step] + rest)[1..] == rest;
    assert EndsBy(parse, s, t, made, [step] + rest, spec);
  }

  lemma LeavesEnds<Doc>(parse: Parser<Doc>, s: Sys<Doc>, step: Step, t: Thread, made: Ref)
    requires Enabled(s, step) && IsOwn(step, t) && (step.Finish? ==> step.made == made)
    requires t in s.loaders && t !in Next(parse, s, step).loaders
    ensures var s' := Next(parse, s, step);
      s'.loaders == s.loaders - {t} && s'.files == s.files && s'.now == s.now && s'.heap.Keys <= s.heap.Keys + {made}
  {
    hide Next, Enabled;
    OwnStepsAreAlone(parse, s, step, t, made);
    var s' := Next(parse, s, step);
    assert s'.loaders - {t} == s'.loaders;
  }

  lemma EndsWith<Doc>(parse: Parser<Doc>, s: Sys<Doc>, t: Thread, made: Ref, step: Step, spec: (map<Path, Held<Doc>>, Answer<Doc>))
    requires Enabled(s, step) && IsOwn(step, t) && (step.Finish? ==> step.made == made) && Leaves(s, Next(parse, s, step), t, spec)
    ensures Ends(parse, s, t, made, spec)
  {
    var s' := Next(parse, s, step);
    assert Possible(parse, s', []) && RunSteps(parse, s', []) == s';
    hide Next, Enabled, Entries, Linked, Alone;
    LeavesEnds(parse, s, step, t, made);
    assert [step][1..] == [] && step == [step][0];
    assert forall other :: other in [step] ==> other == step;
    assert EndsBy(parse, s, t, made, [step], spec);
  }

  lemma InvIsHeldLinked<Doc>(parse: Parser<Doc>, s: Sys<Doc>)
    requires Inv(parse, s)
    ensures HeldLinked(s) && Linked(s)
  {
  }

  lemma InvAfter<Doc>(parse: Parser<Doc>, s: Sys<Doc>, step: Step)
    requires Inv(parse, s) && Enabled(s, step)
    ensures var s' := Next(parse, s, step); Inv(parse, s') && HeldLinked(s') && Linked(s')
  {
    hide Next, Enabled;
    StepKeepsInv(parse, s, step);
    InvIsHeldLinked(parse, Next(parse, s, step));
  }

  lemma FinishThenMark<Doc>(parse: Parser<Doc>, s: Sys<Doc>, t: Thread, made: Ref)
    requires Linked(s) && HeldLinked(s) && IsCurrent(s, t) && s.loaders[t].at.Finishing? && made !in s.heap
    requires t in FinishNext(s, t, made).loaders && Linked(FinishNext(s, t, made))
    ensures var l, s' := s.loaders[t], FinishNext(s, t, made);
      && Next(parse, s, Finish(t, made)) == s' && s'.told == s.told && Enabled(s', Mark(t))
      && Leaves(s', Next(parse, s', Mark(t)), t, MissSpec(Entries(s), l.path, l.stat, l.at.readNs, l.at.read))
  {
    hide HeldLinked, Entries, MissSpec;
    NextIsFinish(parse, s, t, made);
    MarkIsSpec(s, t, made);
    hide FinishNext, Linked, IsCurrent;
  }

  lemma NextIsFinish<Doc>(parse: Parser<Doc>, s: Sys<Doc>, t: Thread, made: Ref)
    requires Enabled(s, Finish(t, made))
    ensures LoaderLinked(s, s.loaders[t]) && Next(parse, s, Finish(t, made)) == FinishNext(s, t, made)
  {
    hide FinishNext;
  }

  lemma FinishEnds<Doc>(parse: Parser<Doc>, s: Sys<Doc>, t: Thread, made: Ref)
    requires Inv(parse, s) && IsCurrent(s, t) && s.loaders[t].at.Finishing? && made !in s.heap
    ensures var l := s.loaders[t]; Ends(parse, s, t, made, MissSpec(Entries(s), l.path, l.stat, l.at.readNs, l.at.read))
  {
    var l, step := s.loaders[t], Finish(t, made);
    var spec := MissSpec(Entries(s), l.path, l.stat, l.at.readNs, l.at.read);
    InvIsHeldLinked(parse, s);
    NextIsFinish(parse, s, t, made);
    hide Inv, Linked, Entries, Ends, HeldLinked, FinishNext, MissSpec, IsCurrent, Next;
    InvAfter(parse, s, step);
    var s' := Next(parse, s, step);
    if t !in s'.loaders {
      FinishIsSpec(s, t, made);
      EndsWith(parse, s, t, made, step, spec);
    } else {
      FinishThenMark(parse, s, t, made);
      EndsWith(parse, s', t, made, Mark(t), spec);
      EndsAfter(parse, s, t, made, step, spec);
    }
  }

  /** The clock and the read of a load change nothing but where it stands. */
  lemma ClockThenRead<Doc>(parse: Parser<Doc>, s: Sys<Doc>, t: Thread)
    requires Inv(parse, s) && IsCurrent(s, t) && s.loaders[t].at.Clocking?
    ensures var l := s.loaders[t];
      && Enabled(s, Clock(t))
      && var clocked := Next(parse, s, Clock(t));
      && clocked.told == s.told && Enabled(clocked, Read(t))
      && var read := Next(parse, clocked, Read(t));
      && read.told == s.told && read.heap == s.heap && read.held == s.held && Inv(parse, read)
      && t in read.loaders && read.loaders[t] == l.(at := Finishing(s.now, ReadOf(parse, s.FileAt(l.path))))
  {
    InvIsHeldLinked(parse, s);
    hide Inv, Linked, HeldLinked, ReadOf, IsCurrent;
    InvAfter(parse, s, Clock(t));
    InvAfter(parse, Next(parse, s, Clock(t)), Read(t));
  }

  lemma MissEnds<Doc>(parse: Parser<Doc>, s: Sys<Doc>, t: Thread, made: Ref)
    requires Inv(parse, s) && IsCurrent(s, t) && s.loaders[t].at.Clocking? && made !in s.heap
    ensures var l := s.loaders[t];
      Ends(parse, s, t, made, MissSpec(Entries(s), l.path, l.stat, s.now, ReadOf(parse, s.FileAt(l.path))))
  {
    hide Inv, Linked, Ends, Entries, MissSpec, ReadOf, Next, Enabled;
    var l := s.loaders[t];
    var spec := MissSpec(Entries(s), l.path, l.stat, s.now, ReadOf(parse, s.FileAt(l.path)));
    ClockThenRead(parse, s, t);
    var clocked := Next(parse, s, Clock(t));
    var read := Next(parse, clocked, Read(t));
    SameEntries(s, read);
    FinishEnds(parse, read, t, made);
    EndsAfter(parse, clocked, t, made, Read(t), spec);
    EndsAfter(parse, s, t, made, Clock(t), spec);
  }

  lemma CheckSettledEnds<Doc>(parse: Parser<Doc>, s: Sys<Doc>, t: Thread, made: Ref)
    requires Inv(parse, s) && IsCurrent(s, t) && s.loaders[t].at.CheckingSettled? && made !in s.heap
    ensures var l := s.loaders[t];
      var read := ReadOf(parse, s.FileAt(l.path));
      && l.ref.Some? && l.ref.value in s.heap && l.stat.Some?
      && Ends(parse, s, t, made,
           if Settled(l.stat.value, s.Fetched(t).failedReadNs) then (Entries(s), Answered(s.Fetched(t).document))
           else MissSpec(Entries(s), l.path, l.stat, s.now, read))
  {
    var l := s.loaders[t];
    InvIsHeldLinked(parse, s);
    assert LoaderLinked(s, l);
    StepKeepsInv(parse, s, CheckSettled(t));
    var s' := Next(parse, s, CheckSettled(t));
    hide Inv, Linked, Ends, Entries, MissSpec, ReadOf, Settled;
    SameEntries(s, s');
    if t in s'.loaders {
      MissEnds(parse, s', t, made);
      EndsAfter(parse, s, t, made, CheckSettled(t), MissSpec(Entries(s), l.path, l.stat, s.now, ReadOf(parse, s.FileAt(l.path))));
    } else {
      EndsWith(parse, s, t, made, CheckSettled(t), (Entries(s), Answered(s.Fetched(t).document)));
    }
  }

  lemma CheckFailedEnds<Doc>(parse: Parser<Doc>, s: Sys<Doc>, t: Thread, made: Ref)
    requires Inv(parse, s) && IsCurrent(s, t) && s.loaders[t].at.CheckingFailed? && made !in s.heap
    ensures var l := s.loaders[t];
      var read := ReadOf(parse, s.FileAt(l.path));
      && l.ref.Some? && l.ref.value in s.heap && l.stat.Some?
      && Ends(parse, s, t, made,
           if s.Fetched(t).failed == l.stat && Settled(l.stat.value, s.Fetched(t).failedReadNs) then
             (Entries(s), Answered(s.Fetched(t).document))
           else MissSpec(Entries(s), l.path, l.stat, s.now, read))
  {
    var l := s.loaders[t];
    InvIsHeldLinked(parse, s);
    assert LoaderLinked(s, l);
    StepKeepsInv(parse, s, CheckFailed(t));
    var s' := Next(parse, s, CheckFailed(t));
    hide Inv, Linked, Ends, Entries, MissSpec, ReadOf, Settled;
    SameEntries(s, s');
    if s'.loaders[t].at.CheckingSettled? {
      CheckSettledEnds(parse, s', t, made);
    } else {
      MissEnds(parse, s', t, made);
    }
    EndsAfter(parse, s, t, made, CheckFailed(t),
      if s.Fetched(t).failed == l.stat && Settled(l.stat.value, s.Fetched(t).failedReadNs) then
        (Entries(s), Answered(s.Fetched(t).document))
      else MissSpec(Entries(s), l.path, l.stat, s.now, ReadOf(parse, s.FileAt(l.path))));
  }

  /** A fetch ends the load on a settled stamp, and goes on to the next check or the clock otherwise. */
  lemma FetchGoesOn<Doc>(parse: Parser<Doc>, s: Sys<Doc>, t: Thread)
    requires HeldLinked(s) && Enabled(s, Fetch(t))
    ensures var l, s' := s.loaders[t], Next(parse, s, Fetch(t));
      && s'.heap == s.heap && s'.held == s.held && s'.now == s.now && s'.files == s.files
      && if HitsStamp(Entries(s), l.path, l.stat) then
           Leaves(s, s', t, (Entries(s), Answered(Entries(s)[l.path].document)))
         else
           && IsCurrent(s', t) && s'.told == s.told && s'.loaders[t].path == l.path && s'.loaders[t].stat == l.stat
           && if l.path in Entries(s) && l.stat.Some? then
                s'.loaders[t].at.CheckingFailed? && Entries(s)[l.path] == s'.Fetched(t)
              else s'.loaders[t].at.Clocking?
  {
    EntryKeys(s);
    hide Linked, HeldLinked, Entries, Settled;
    SameEntries(s, Next(parse, s, Fetch(t)));
  }

  lemma FetchEnds<Doc>(parse: Parser<Doc>, s: Sys<Doc>, t: Thread, made: Ref)
    requires Inv(parse, s) && t in s.loaders && s.loaders[t].at.Fetching? && made !in s.heap
    ensures var l := s.loaders[t];
      Ends(parse, s, t, made, LoadSpec(Entries(s), l.path, l.stat, s.now, ReadOf(parse, s.FileAt(l.path))))
  {
    var l := s.loaders[t];
    InvIsHeldLinked(parse, s);
    hide Inv, Linked, HeldLinked, Ends, Entries, MissSpec, ReadOf, Settled, FetchNext;
    InvAfter(parse, s, Fetch(t));
    FetchGoesOn(parse, s, t);
    var s' := Next(parse, s, Fetch(t));
    hide Next, IsCurrent;
    SameEntries(s, s');
    var spec := LoadSpec(Entries(s), l.path, l.stat, s.now, ReadOf(parse, s.FileAt(l.path)));
    if HitsStamp(Entries(s), l.path, l.stat) {
      EndsWith(parse, s, t, made, Fetch(t), spec);
    } else {
      if s'.loaders[t].at.Clocking? {
        MissEnds(parse, s', t, made);
      } else {
        CheckFailedEnds(parse, s', t, made);
      }
      EndsAfter(parse, s, t, made, Fetch(t), spec);
    }
  }

  /** A load that no other step comes between is the one `LoadManifest` is proved to do. */
  lemma ALoadByItselfIsLoadSpec<Doc>(parse: Parser<Doc>, s: Sys<Doc>, t: Thread, path: Path, made: Ref)
    requires Inv(parse, s) && t !in s.loaders && made !in s.heap
    ensures Ends(parse, s, t, made, LoadSpec(Entries(s), path, StatOf(s.FileAt(path)), s.now, ReadOf(parse, s.FileAt(path))))
  {
    InvIsHeldLinked(parse, s);
    StepKeepsInv(parse, s, Stat(t, path));
    var s' := Next(parse, s, Stat(t, path));
    hide Inv, Linked, HeldLinked, Ends, Entries, LoadSpec, ReadOf, StatOf;
    SameEntries(s, s');
    FetchEnds(parse, s', t, made);
    EndsAfter(parse, s, t, made, Stat(t, path), LoadSpec(Entries(s), path, StatOf(s.FileAt(path)), s.now, ReadOf(parse, s.FileAt(path))));
  }

  // ---- a file that did not change ----

  /** The load told this answer and is over. */
  ghost predicate EndsWithAnswer<Doc>(s: Sys<Doc>, s': Sys<Doc>, t: Thread, answer: Answer<Doc>) {
    t !in s'.loaders && |s'.told| == |s.told| + 1 && s'.told[|s.told|].answer == answer
  }

  lemma FetchOfAnAnswer<Doc>(s: Sys<Doc>, t: Thread)
    requires HeldLinked(s) && t in s.loaders && s.loaders[t].at.Fetching? && s.loaders[t].stat.Some?
    requires s.loaders[t].path in s.held && AnswersFor(s.heap[s.held[s.loaders[t].path]].held, s.loaders[t].stat.value)
    ensures var held, fetched := s.heap[s.held[s.loaders[t].path]].held, FetchNext(s, t);
      if t !in fetched.loaders then EndsWithAnswer(s, fetched, t, Answered(held.document))
      else
        && fetched.loaders[t].at.CheckingFailed? && fetched.loaders[t].stat == s.loaders[t].stat && fetched.told == s.told
        && fetched.loaders[t].ref == Some(s.held[s.loaders[t].path]) && fetched.heap == s.heap
        && held.failed == s.loaders[t].stat && Settled(s.loaders[t].stat.value, held.failedReadNs)
  {
  }

  /** Looking at `failed`, and then at when that was, is all that is left to do. */
  lemma CheckOfAnAnswer<Doc>(parse: Parser<Doc>, s: Sys<Doc>, t: Thread)
    requires Inv(parse, s) && t in s.loaders && s.loaders[t].at.CheckingFailed?
    requires s.loaders[t].ref.Some? && s.loaders[t].ref.value in s.heap && s.loaders[t].stat.Some?
    requires s.Fetched(t).failed == s.loaders[t].stat && Settled(s.loaders[t].stat.value, s.Fetched(t).failedReadNs)
    ensures Enabled(s, CheckFailed(t))
    ensures var checked := Next(parse, s, CheckFailed(t));
      Enabled(checked, CheckSettled(t)) && EndsWithAnswer(s, Next(parse, checked, CheckSettled(t)), t, Answered(s.Fetched(t).document))
  {
    InvIsHeldLinked(parse, s);
    InvAfter(parse, s, CheckFailed(t));
    hide Inv, Linked, HeldLinked, Settled;
  }

  /** A load that fetches an entry which answers for its stamp ends at once or after looking at `failed`, and never reads. */
  lemma AnUnchangedFileIsNotRead<Doc>(parse: Parser<Doc>, s: Sys<Doc>, t: Thread)
    requires Inv(parse, s) && t in s.loaders && s.loaders[t].at.Fetching? && s.loaders[t].stat.Some?
    requires s.loaders[t].path in s.held && AnswersFor(s.heap[s.held[s.loaders[t].path]].held, s.loaders[t].stat.value)
    ensures var answer := Answered(s.heap[s.held[s.loaders[t].path]].held.document);
      && Enabled(s, Fetch(t))
      && var fetched := Next(parse, s, Fetch(t));
      && (t !in fetched.loaders ==> EndsWithAnswer(s, fetched, t, answer))
      && (t in fetched.loaders ==>
            && Enabled(fetched, CheckFailed(t))
            && var checked := Next(parse, fetched, CheckFailed(t));
               Enabled(checked, CheckSettled(t)) && EndsWithAnswer(s, Next(parse, checked, CheckSettled(t)), t, answer))
  {
    InvIsHeldLinked(parse, s);
    FetchOfAnAnswer(s, t);
    hide Inv, Linked, HeldLinked, AnswersFor, FetchNext, Settled;
    InvAfter(parse, s, Fetch(t));
    var fetched := Next(parse, s, Fetch(t));
    assert fetched == FetchNext(s, t);
    hide Next;
    if t in fetched.loaders {
      CheckOfAnAnswer(parse, fetched, t);
    }
  }

  // ---- a file that did ----

  /** Whatever is held, a write is answered by the next whole load: with what was written, or if that does not parse with the last good document. */
  lemma AWriteIsAnsweredNext<Doc>(parse: Parser<Doc>, s: Sys<Doc>, t: Thread, path: Path, file: File, made: Ref)
    requires Inv(parse, s) && t !in s.loaders && made !in s.heap && file.Present? && Enabled(s, Write(path, file))
    ensures var written := Next(parse, s, Write(path, file));
      var answer := if parse(file.content).Some? then Answered(parse(file.content).value)
                    else if path in s.held then Answered(s.heap[s.held[path]].held.document)
                    else Raised;
      exists held :: Ends(parse, written, t, made, (held, answer))
  {
    var step := Write(path, file);
    var written := Next(parse, s, step);
    InvIsHeldLinked(parse, s);
    EntryKeys(s);
    InvAfter(parse, s, step);
    EntryKeys(written);
    assert written.FileAt(path) == file && written.heap == s.heap && written.held == s.held && written.now == s.now;
    NothingAnswersForAWrite(parse, s, path, file);
    hide Inv, Linked, HeldLinked, Ends, Entries, Next, Settled;
    SameEntries(s, written);
    ALoadByItselfIsLoadSpec(parse, written, t, path, made);
  }

  /** What is held was read no later than now, so it does not answer for a file dated less than the window ago. */
  lemma NothingAnswersForAWrite<Doc>(parse: Parser<Doc>, s: Sys<Doc>, path: Path, file: File)
    requires Inv(parse, s) && file.Present? && file.mtimeNs >= s.now - RACY_NS
    ensures !Hits(Entries(s), path, StatOf(file))
  {
    InvIsHeldLinked(parse, s);
    EntryKeys(s);
    if path in s.held {
      assert CellOk(parse, s, s.heap[s.held[path]]);
    }
  }

  // ---- the window is tight ----

  /** A file dated a nanosecond behind the window hits the held entry, and reads as something else. */
  ghost predicate IsMissed<Doc>(parse: Parser<Doc>, s: Sys<Doc>, path: Path, late: File) {
    && late.Present? && late.mtimeNs == s.now - RACY_NS - 1
    && path in Entries(s) && HitsNow(Entries(s)[path], late) && ReadOf(parse, late) != Some(Entries(s)[path].document)
  }

  /**
   * One write whose mtime lags the clock by a nanosecond more than the window can put other content under the stamp of
   * an entry that has settled, which the next load answers with.
   */
  lemma AWriteBehindTheWindowIsMissed(parse: Parser<string>, path: Path)
    requires parse("a") == Some("a") && parse("b") == Some("b")
    ensures var s := Start<string>(RACY_NS + 1, map[path := Present(0, 1, "a")]);
      exists steps :: Possible(parse, s, steps) && IsMissed(parse, RunSteps(parse, s, steps), path, Present(0, 1, "b"))
  {
    var s := Start<string>(RACY_NS + 1, map[path := Present(0, 1, "a")]);
    hide Entries, Possible, RunSteps, IsMissed;
    ALoadByItselfIsLoadSpec(parse, s, 0, path, 0);
    assert Entries(s) == map[] by { EntryKeys(s); }
    var spec := LoadSpec(map[], path, Some(Stamp(0, 1)), s.now, Some("a"));
    var steps :| EndsBy(parse, s, 0, 0, steps, spec);
    SettledIsMissed(parse, RunSteps(parse, s, steps), path);
    assert Possible(parse, s, steps);
  }

  lemma SettledIsMissed(parse: Parser<string>, s: Sys<string>, path: Path)
    requires parse("b") == Some("b") && s.now == RACY_NS + 1
    requires Entries(s) == map[path := Held(Stamp(0, 1), "a", s.now, None, 0)]
    ensures IsMissed(parse, s, path, Present(0, 1, "b"))
  {
    hide Entries;
  }

  // ---- what was read first can be held last ----

  /**
   * A load that has read one document is overtaken by a whole load that reads another, and then finishes: what is held,
   * and what every later failing re-read answers as the last good document, is the one that was read first.
   */
  lemma ASlowLoadBringsBackAnOlderDocument<Doc>(
      parse: Parser<Doc>, s: Sys<Doc>, slow: Thread, t: Thread, made: Ref, other: Ref, stat: Stamp, readNs: int)
    requires Inv(parse, s) && slow in s.loaders && t !in s.loaders && made != other && made !in s.heap && other !in s.heap
    requires var l := s.loaders[slow]; l.at.Finishing? && l.at.read.Some? && l.stat.Some?
    ensures var l := s.loaders[slow];
      var spec := LoadSpec(Entries(s), l.path, StatOf(s.FileAt(l.path)), s.now, ReadOf(parse, s.FileAt(l.path)));
      exists steps ::
      && EndsBy(parse, s, t, made, steps, spec)
      && var end := RunSteps(parse, s, steps);
      && Enabled(end, Finish(slow, other))
      && var after := Next(parse, end, Finish(slow, other));
         LoadSpec(Entries(after), l.path, Some(stat), readNs, None).1 == Answered(l.at.read.value)
  {
    hide Inv, Linked, HeldLinked, Entries, LoadSpec, ReadOf, StatOf, Possible, RunSteps, Next;
    var l := s.loaders[slow];
    var spec := LoadSpec(Entries(s), l.path, StatOf(s.FileAt(l.path)), s.now, ReadOf(parse, s.FileAt(l.path)));
    ALoadByItselfIsLoadSpec(parse, s, t, l.path, made);
    var steps :| EndsBy(parse, s, t, made, steps, spec);
    var end := RunSteps(parse, s, steps);
    RunKeepsInv(parse, s, steps);
    InvIsHeldLinked(parse, end);
    assert end.loaders[slow] == l;
    ASlowFinishIsHeld(parse, end, slow, other, stat, readNs);
  }

  lemma ASlowFinishIsHeld<Doc>(parse: Parser<Doc>, s: Sys<Doc>, slow: Thread, made: Ref, stat: Stamp, readNs: int)
    requires Linked(s) && HeldLinked(s) && slow in s.loaders && made !in s.heap
    requires var l := s.loaders[slow]; l.at.Finishing? && l.at.read.Some? && l.stat.Some?
    ensures var l := s.loaders[slow];
      && Enabled(s, Finish(slow, made))
      && LoadSpec(Entries(Next(parse, s, Finish(slow, made))), l.path, Some(stat), readNs, None).1 == Answered(l.at.read.value)
  {
    hide Linked, HeldLinked, Entries, LoadSpec;
    var l := s.loaders[slow];
    var held := Held(l.stat.value, l.at.read.value, l.at.readNs, None, 0);
    EntryMade(s, l.path, made, held);
    SameEntries(s.Store(made, Cell(l.path, held)).(held := s.held[l.path := made]), Next(parse, s, Finish(slow, made)));
    FailedRereadKeepsTheLastGoodExactlyWhen(Entries(s)[l.path := held], l.path, Some(stat), readNs);
  }
}
