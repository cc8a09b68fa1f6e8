/**
 * farrier/farrier/home_entries.py: named entries farrier keeps inside config files their user also edits, and the
 * ledger that says which of them are farrier's.
 *
 * A config file is the map of its entries. The files of a home are one map from (file, container, name) to value; a
 * write replaces all the drifted entries of one file at once.
 */
module HomeEntries {
  type Rel = string

  datatype Key = Key(rel: Rel, container: string, name: string)

  datatype Item = Null | NoItems | NoKeys | Json(text: string)

  type Value = map<string, Item>

  /** What a file has under a name: an object, or a null, which `get` does not tell from a name that is not there. */
  datatype Held = NullEntry | Object(value: Value)

  type Files = map<Key, Held>

  type Entries = map<Key, Value>

  /** `OVERRIDES`: the file a harness reads beside its config, and prefers. */
  const OVERRIDES: map<Rel, Rel> := map[".config/opencode/opencode.json" := ".config/opencode/opencode.jsonc"]

  /** The value without its empty keys, which a harness may write or omit. */
  function Significant(value: Value): Value {
    map key | key in value && value[key].Json? :: value[key]
  }

  datatype DriftKind = Missing | Changed | Foreign | Extra

  datatype Drift = Drift(kind: DriftKind, key: Key)

  // ---- entry_drift ----

  /** The file has the name, and not for a null. */
  predicate Holds(files: Files, key: Key) {
    key in files && files[key].Object?
  }

  predicate Differs(files: Files, key: Key, value: Value) {
    Holds(files, key) && Significant(files[key].value) != Significant(value)
  }

  function Beside(key: Key): Key
    requires key.rel in OVERRIDES
  {
    key.(rel := OVERRIDES[key.rel])
  }

  /** How one intended entry departs from what its own file and the file beside it hold. */
  function EntryDriftOf(files: Files, ledger: set<Key>, key: Key, value: Value): set<Drift> {
    var beside :=
      if key.rel in OVERRIDES && Differs(files, Beside(key), value) then {Drift(Foreign, Beside(key))} else {};
    if !Holds(files, key) then beside + {Drift(Missing, key)}
    else if !Differs(files, key, value) then beside
    else beside + {Drift(if key in ledger then Changed else Foreign, key)}
  }

  /** Every difference between the intended entries, the ledger and the files. */
  function EntryDrift(files: Files, ledger: set<Key>, intended: Entries): set<Drift> {
    (set key, drift | key in intended && drift in EntryDriftOf(files, ledger, key, intended[key]) :: drift)
    + set key | key in ledger && key in files && key !in intended :: Drift(Extra, key)
  }

  predicate Refused(files: Files, ledger: set<Key>, intended: Entries) {
    exists drift :: drift in EntryDrift(files, ledger, intended) && drift.kind == Foreign
  }

  // ---- install_entries ----

  /** The intended entry is put: its file holds none, a null or one that differs. */
  predicate ToPut(files: Files, intended: Entries, key: Key) {
    key in intended && (!Holds(files, key) || Differs(files, key, intended[key]))
  }

  /** The entry is farrier's and no longer intended. */
  predicate ToDrop(files: Files, ledger: set<Key>, intended: Entries, key: Key) {
    key in ledger && key in files && key !in intended
  }

  function DriftedFiles(files: Files, ledger: set<Key>, intended: Entries): set<Rel> {
    set drift | drift in EntryDrift(files, ledger, intended) :: drift.key.rel
  }

  /** What farrier owns after the install: what it owned and still intends, and what it has to put. */
  function Owned(files: Files, ledger: set<Key>, intended: Entries): set<Key> {
    set key | key in intended && (key in ledger || ToPut(files, intended, key))
  }

  /** The files once those in `done` are rewritten. */
  function Rewritten(files: Files, ledger: set<Key>, intended: Entries, done: set<Rel>): Files {
    map key |
      key in files.Keys + intended.Keys &&
      (if key.rel in done then
         (ToPut(files, intended, key) || key in files) && !ToDrop(files, ledger, intended, key)
       else key in files)
      :: if key.rel in done && ToPut(files, intended, key) then Object(intended[key]) else files[key]
  }

  /** The files and the ledger of a home. */
  datatype Home = Home(files: Files, ledger: set<Key>)

  function InstallSpec(home: Home, intended: Entries): Home {
    Home(
      Rewritten(home.files, home.ledger, intended, DriftedFiles(home.files, home.ledger, intended)),
      Owned(home.files, home.ledger, intended))
  }

  /** Where an install can stop: before it, after some of its file writes, or at its end. */
  datatype Stage = Before | Writing(done: set<Rel>) | After

  /** The home an install stopped at `stage` leaves: the ledger is widened before any file and narrowed after all. */
  function StoppedAt(home: Home, intended: Entries, stage: Stage): Home {
    match stage
    case Before => home
    case Writing(done) =>
      Home(Rewritten(home.files, home.ledger, intended, done),
           home.ledger + Owned(home.files, home.ledger, intended))
    case After => InstallSpec(home, intended)
  }

  class HomeDir {
    var files: Files
    var ledger: set<Key>

    constructor (files: Files, ledger: set<Key>)
      ensures this.files == files && this.ledger == ledger
    {
      this.files, this.ledger := files, ledger;
    }

    /** Rewrite one file: put what drifted, drop what is extra, in one replace. */
    method RewriteFile(rel: Rel, before: Home, intended: Entries)
      modifies this`files
      requires forall key: Key :: key.rel == rel ==> (key in files <==> key in before.files)
      requires forall key: Key :: key.rel == rel && key in files ==> files[key] == before.files[key]
      ensures forall key: Key :: key.rel != rel ==> (key in files <==> key in old(files))
      ensures forall key: Key :: key.rel != rel && key in files ==> files[key] == old(files)[key]
      ensures forall key: Key :: key.rel == rel ==>
        (key in files <==> (ToPut(before.files, intended, key) || key in before.files) && !ToDrop(before.files, before.ledger, intended, key))
      ensures forall key: Key :: key.rel == rel && key in files ==>
        files[key] == if ToPut(before.files, intended, key) then Object(intended[key]) else before.files[key]
    {
      var drops := set key | key in files && key.rel == rel && ToDrop(before.files, before.ledger, intended, key);
      var puts := map key | key in intended && key.rel == rel && ToPut(before.files, intended, key) :: Object(intended[key]);
      files := (files - drops) + puts;
    }

    method InstallEntries(intended: Entries) returns (changed: nat)
      modifies this
      ensures Home(files, ledger) == InstallSpec(Home(old(files), old(ledger)), intended)
      ensures changed == |EntryDrift(old(files), old(ledger), intended)|
    {
      hide EntryDrift, Rewritten, ToPut, ToDrop;
      var before := Home(files, ledger);
      var drift := EntryDrift(files, ledger, intended);
      var owned := Owned(files, ledger, intended);
      ledger := ledger + owned;
      var todo := DriftedFiles(files, before.ledger, intended);
      ghost var done: set<Rel> := {};
      NothingRewritten(before, intended);
      while todo != {}
        invariant done + todo == DriftedFiles(before.files, before.ledger, intended) && done !! todo
        invariant files == Rewritten(before.files, before.ledger, intended, done)
        invariant ledger == before.ledger + owned
        decreases todo
      {
        var rel :| rel in todo;
        ghost var was := files;
        FileNotYetRewritten(before, intended, done, rel);
        RewriteFile(rel, before, intended);
        OneMoreRewritten(before, intended, done, rel, was, files);
        todo, done := todo - {rel}, done + {rel};
      }
      ledger := owned;
      changed := |drift|;
    }
  }

  lemma NothingRewritten(before: Home, intended: Entries)
    ensures Rewritten(before.files, before.ledger, intended, {}) == before.files
  {
  }

  lemma FileNotYetRewritten(before: Home, intended: Entries, done: set<Rel>, rel: Rel)
    requires rel !in done
    ensures var files := Rewritten(before.files, before.ledger, intended, done);
      forall key: Key :: key.rel == rel ==>
        && (key in files <==> key in before.files)
        && (key in files ==> files[key] == before.files[key])
  {
    hide ToPut, ToDrop;
  }

  /** Rewriting the file `rel` after those in `done` is having rewritten both. */
  lemma OneMoreRewritten(before: Home, intended: Entries, done: set<Rel>, rel: Rel, was: Files, files: Files)
    requires was == Rewritten(before.files, before.ledger, intended, done)
    requires forall key: Key :: key.rel != rel ==> (key in files <==> key in was)
    requires forall key: Key :: key.rel != rel && key in files ==> files[key] == was[key]
    requires forall key: Key :: key.rel == rel ==>
      (key in files <==> (ToPut(before.files, intended, key) || key in before.files) && !ToDrop(before.files, before.ledger, intended, key))
    requires forall key: Key :: key.rel == rel && key in files ==>
      files[key] == if ToPut(before.files, intended, key) then Object(intended[key]) else before.files[key]
    ensures files == Rewritten(before.files, before.ledger, intended, done + {rel})
  {
    var then_ := Rewritten(before.files, before.ledger, intended, done + {rel});
    forall key ensures key in files <==> key in then_ {
      hide Significant;
    }
    hide ToPut, ToDrop;
    assert files.Keys == then_.Keys;
    forall key | key in files ensures files[key] == then_[key] {
    }
  }

  // ---- what drift says, key by key ----

  /** The file beside an intended entry's own holds another value under its name. */
  predicate ForeignBeside(files: Files, intended: Entries, own: Key, key: Key) {
    && own in intended && own.rel in OVERRIDES && Beside(own) == key
    && Differs(files, key, intended[own])
  }

  /** Which keys are reported as what. */
  lemma DriftIsExact(files: Files, ledger: set<Key>, intended: Entries, key: Key)
    ensures Drift(Missing, key) in EntryDrift(files, ledger, intended) <==> key in intended && !Holds(files, key)
    ensures Drift(Changed, key) in EntryDrift(files, ledger, intended) <==>
      key in intended && key in ledger && Differs(files, key, intended[key])
    ensures Drift(Extra, key) in EntryDrift(files, ledger, intended) <==> ToDrop(files, ledger, intended, key)
    ensures Drift(Foreign, key) in EntryDrift(files, ledger, intended) <==>
      || (key in intended && key !in ledger && Differs(files, key, intended[key]))
      || (exists own :: ForeignBeside(files, intended, own, key))
  {
    OwnDriftIsExact(files, ledger, intended, key);
    ForeignIsExact(files, ledger, intended, key);
  }

  lemma OwnDriftIsExact(files: Files, ledger: set<Key>, intended: Entries, key: Key)
    ensures Drift(Missing, key) in EntryDrift(files, ledger, intended) <==> key in intended && !Holds(files, key)
    ensures Drift(Changed, key) in EntryDrift(files, ledger, intended) <==>
      key in intended && key in ledger && Differs(files, key, intended[key])
    ensures Drift(Extra, key) in EntryDrift(files, ledger, intended) <==> ToDrop(files, ledger, intended, key)
  {
    hide Significant;
    if key in intended {
      assert EntryDriftOf(files, ledger, key, intended[key]) <= EntryDrift(files, ledger, intended);
    }
  }

  lemma ForeignIsExact(files: Files, ledger: set<Key>, intended: Entries, key: Key)
    ensures Drift(Foreign, key) in EntryDrift(files, ledger, intended) <==>
      || (key in intended && key !in ledger && Differs(files, key, intended[key]))
      || (exists own :: ForeignBeside(files, intended, own, key))
  {
    hide Significant;
    if key in intended {
      assert EntryDriftOf(files, ledger, key, intended[key]) <= EntryDrift(files, ledger, intended);
    }
    if own :| ForeignBeside(files, intended, own, key) {
      assert Drift(Foreign, key) in EntryDriftOf(files, ledger, own, intended[own]);
    }
    if Drift(Foreign, key) in EntryDrift(files, ledger, intended) {
      var own :| own in intended && Drift(Foreign, key) in EntryDriftOf(files, ledger, own, intended[own]);
      assert own == key || ForeignBeside(files, intended, own, key);
    }
  }

  /** A value farrier did not install stands where the entry goes, or in the file beside it. */
  predicate Blocks(files: Files, ledger: set<Key>, key: Key, value: Value) {
    || (key !in ledger && Differs(files, key, value))
    || (key.rel in OVERRIDES && Differs(files, Beside(key), value))
  }

  /** An install is refused exactly when an entry farrier does not own differs, in its file or in the one beside it. */
  lemma RefusedExactlyWhen(files: Files, ledger: set<Key>, intended: Entries)
    ensures Refused(files, ledger, intended) <==> exists key :: key in intended && Blocks(files, ledger, key, intended[key])
  {
    hide Significant;
    if Refused(files, ledger, intended) {
      var drift :| drift in EntryDrift(files, ledger, intended) && drift.kind == Foreign;
      var key :| key in intended && drift in EntryDriftOf(files, ledger, key, intended[key]);
    }
    forall key | key in intended && Blocks(files, ledger, key, intended[key])
      ensures Refused(files, ledger, intended)
    {
      var drift := if key !in ledger && Differs(files, key, intended[key])
        then Drift(Foreign, key) else Drift(Foreign, Beside(key));
      assert drift in EntryDriftOf(files, ledger, key, intended[key]);
      assert drift in EntryDrift(files, ledger, intended);
    }
  }

  lemma PutsAndDropsAreDrifted(files: Files, ledger: set<Key>, intended: Entries, key: Key)
    requires ToPut(files, intended, key) || ToDrop(files, ledger, intended, key)
    ensures key.rel in DriftedFiles(files, ledger, intended)
  {
    hide Significant;
    DriftIsExact(files, ledger, intended, key);
    if ToPut(files, intended, key) {
      var kind := if !Holds(files, key) then Missing else if key in ledger then Changed else Foreign;
      assert Drift(kind, key) in EntryDriftOf(files, ledger, key, intended[key]);
      assert Drift(kind, key) in EntryDrift(files, ledger, intended);
    } else {
      assert Drift(Extra, key) in EntryDrift(files, ledger, intended);
    }
  }

  /** The whole install, key by key. */
  lemma InstalledAt(home: Home, intended: Entries, key: Key)
    ensures var after := InstallSpec(home, intended);
      && (key in after.files <==>
            key in intended || (key in home.files && key !in home.ledger))
      && (key in after.files ==>
            after.files[key] == if ToPut(home.files, intended, key) then Object(intended[key]) else home.files[key])
      && (key in after.ledger <==> key in intended && (key in home.ledger || ToPut(home.files, intended, key)))
  {
    hide EntryDrift, Significant;
    if ToPut(home.files, intended, key) || ToDrop(home.files, home.ledger, intended, key) {
      PutsAndDropsAreDrifted(home.files, home.ledger, intended, key);
    }
  }

  // ---- what an entry holds, item by item ----

  predicate HasItem(value: Value, name: string) {
    name in value && value[name] != Null && value[name] != NoItems && value[name] != NoKeys
  }

  /** Of one of the two values the name is an item, and of the other not or another. */
  predicate PartOver(a: Value, b: Value, name: string) {
    HasItem(a, name) != HasItem(b, name) || (HasItem(a, name) && a[name] != b[name])
  }

  /** An entry that is there differs from a value exactly when they part over some item; what is empty is no item. */
  lemma DiffersExactlyWhen(files: Files, key: Key, value: Value)
    ensures Differs(files, key, value) <==>
      key in files && files[key] != NullEntry && exists name :: PartOver(files[key].value, value, name)
  {
    if key in files && files[key].Object? {
      var held := files[key].value;
      var a, b := Significant(held), Significant(value);
      forall name ensures name in a <==> HasItem(held, name) {
      }
      forall name ensures name in b <==> HasItem(value, name) {
      }
      if a != b {
        if forall name :: !PartOver(held, value, name) {
          assert forall name :: name in a <==> name in b by {
            assert forall name :: !PartOver(held, value, name) ==> (HasItem(held, name) <==> HasItem(value, name));
          }
          assert a.Keys == b.Keys;
          forall name | name in a ensures a[name] == b[name] {
            assert !PartOver(held, value, name);
          }
        }
      } else {
        forall name ensures !PartOver(held, value, name) {
          assert name in a <==> name in b;
          if name in a {
            assert a[name] == held[name] && b[name] == value[name];
          }
        }
      }
    }
  }

  /** After an install every intended entry is an object with exactly the items it is intended to have. */
  lemma InstallSetsEveryItem(home: Home, intended: Entries, key: Key, name: string)
    requires key in intended
    ensures var after := InstallSpec(home, intended);
      key in after.files && after.files[key].Object? && !PartOver(after.files[key].value, intended[key], name)
  {
    hide Significant, InstallSpec, PartOver;
    InstalledAt(home, intended, key);
    DiffersExactlyWhen(home.files, key, intended[key]);
    assert !PartOver(intended[key], intended[key], name) by { SameValuesDoNotPart(intended[key], name); }
  }

  lemma SameValuesDoNotPart(value: Value, name: string)
    ensures !PartOver(value, value, name)
  {
  }

  // ---- crash and restart ----

  /** Before it is done, a stopped install has put or dropped only what a whole install would. */
  lemma StoppedAtKey(home: Home, intended: Entries, done: set<Rel>, key: Key)
    ensures var stopped := StoppedAt(home, intended, Writing(done));
      && (key in stopped.ledger <==> key in home.ledger || (key in intended && ToPut(home.files, intended, key)))
      && (key in stopped.files <==>
            if key.rel in done then key in intended || (key in home.files && key !in home.ledger) else key in home.files)
      && (key in stopped.files ==>
            stopped.files[key] == if key.rel in done && ToPut(home.files, intended, key) then Object(intended[key]) else home.files[key])
  {
    hide Significant;
  }

  /** The library never intends an entry in a file it only reads. */
  predicate ProperIntent(intended: Entries) {
    forall key :: key in intended ==> key.rel !in OVERRIDES.Values
  }

  lemma BesideIsNotIntended(intended: Entries, key: Key)
    requires ProperIntent(intended) && key.rel in OVERRIDES
    ensures Beside(key) !in intended
  {
    assert OVERRIDES[key.rel] in OVERRIDES.Values;
  }

  /** Nothing farrier wrote, and nothing it left, is reported foreign after a crash. */
  lemma StoppedIsNotRefused(home: Home, intended: Entries, stage: Stage)
    requires ProperIntent(intended) && !Refused(home.files, home.ledger, intended)
    ensures var stopped := StoppedAt(home, intended, stage); !Refused(stopped.files, stopped.ledger, intended)
  {
    hide Significant, Refused, StoppedAt, Beside;
    var stopped := StoppedAt(home, intended, stage);
    RefusedExactlyWhen(home.files, home.ledger, intended);
    RefusedExactlyWhen(stopped.files, stopped.ledger, intended);
    forall key | key in intended ensures !Blocks(stopped.files, stopped.ledger, key, intended[key]) {
      assert !Blocks(home.files, home.ledger, key, intended[key]);
      StageAt(home, intended, stage, key);
      if key.rel in OVERRIDES {
        BesideIsNotIntended(intended, key);
        StageAt(home, intended, stage, Beside(key));
      }
    }
  }

  /** At every stage an intended entry is farrier's value or what was there, and other entries are what was there or gone. */
  lemma StageAt(home: Home, intended: Entries, stage: Stage, key: Key)
    ensures var stopped := StoppedAt(home, intended, stage);
      && (key !in intended && key in stopped.files ==> key in home.files && stopped.files[key] == home.files[key])
      && (key in intended && key in stopped.files ==>
            || stopped.files[key] == Object(intended[key])
            || (key in home.files && stopped.files[key] == home.files[key]))
      && (key in intended && key in home.ledger ==> key in stopped.ledger)
      && (key in intended && key in stopped.files && key in home.files && key !in home.ledger && stopped.files[key] != home.files[key] ==>
            ToPut(home.files, intended, key))
  {
    hide Significant;
    match stage {
      case Before =>
      case Writing(done) =>
        hide StoppedAt;
        StoppedAtKey(home, intended, done, key);
      case After => InstalledAt(home, intended, key);
    }
  }

  lemma SameHome(a: Home, b: Home)
    requires forall key :: key in a.files <==> key in b.files
    requires forall key :: key in a.files ==> a.files[key] == b.files[key]
    requires forall key :: key in a.ledger <==> key in b.ledger
    ensures a == b
  {
    assert a.files.Keys == b.files.Keys;
  }

  /** Stopping an install anywhere and running it again with the same intent ends where an uninterrupted install does. */
  lemma RestartConverges(home: Home, intended: Entries, stage: Stage)
    ensures InstallSpec(StoppedAt(home, intended, stage), intended) == InstallSpec(home, intended)
  {
    hide Significant, InstallSpec, StoppedAt;
    var stopped := StoppedAt(home, intended, stage);
    var again, once := InstallSpec(stopped, intended), InstallSpec(home, intended);
    forall key
      ensures key in again.files <==> key in once.files
      ensures key in again.files ==> again.files[key] == once.files[key]
      ensures key in again.ledger <==> key in once.ledger
    {
      RestartConvergesAt(home, intended, stage, key);
    }
    SameHome(again, once);
  }

  lemma RestartConvergesAt(home: Home, intended: Entries, stage: Stage, key: Key)
    ensures var again, once := InstallSpec(StoppedAt(home, intended, stage), intended), InstallSpec(home, intended);
      && (key in again.files <==> key in once.files)
      && (key in again.files ==> again.files[key] == once.files[key])
      && (key in again.ledger <==> key in once.ledger)
  {
    hide Significant, InstallSpec, EntryDrift;
    var stopped := StoppedAt(home, intended, stage);
    InstalledAt(home, intended, key);
    InstalledAt(stopped, intended, key);
    match stage {
      case Before =>
      case Writing(done) =>
        hide StoppedAt;
        StoppedAtKey(home, intended, done, key);
      case After =>
    }
  }

  /** After an install that was not refused nothing drifts. */
  lemma InstallLeavesNoDrift(home: Home, intended: Entries)
    requires ProperIntent(intended) && !Refused(home.files, home.ledger, intended)
    ensures var after := InstallSpec(home, intended); EntryDrift(after.files, after.ledger, intended) == {}
  {
    hide Significant, Refused, InstallSpec, Beside;
    var after := InstallSpec(home, intended);
    RefusedExactlyWhen(home.files, home.ledger, intended);
    forall key | key in intended ensures EntryDriftOf(after.files, after.ledger, key, intended[key]) == {} {
      assert !Blocks(home.files, home.ledger, key, intended[key]);
      InstalledAt(home, intended, key);
      if key.rel in OVERRIDES {
        BesideIsNotIntended(intended, key);
        InstalledAt(home, intended, Beside(key));
      }
    }
    forall key ensures !(key in after.ledger && key in after.files && key !in intended) {
      InstalledAt(home, intended, key);
    }
  }

  /** A crash anywhere, then a rerun: not refused, the same files and ledger as without the crash, and nothing drifts. */
  lemma CrashThenRestart(home: Home, intended: Entries, stage: Stage)
    requires ProperIntent(intended) && !Refused(home.files, home.ledger, intended)
    ensures var stopped := StoppedAt(home, intended, stage);
      var after := InstallSpec(stopped, intended);
      && !Refused(stopped.files, stopped.ledger, intended)
      && after == InstallSpec(home, intended)
      && EntryDrift(after.files, after.ledger, intended) == {}
  {
    hide StoppedAt, InstallSpec, Refused;
    StoppedIsNotRefused(home, intended, stage);
    RestartConverges(home, intended, stage);
    InstallLeavesNoDrift(home, intended);
  }

  // ---- histories of installs and user edits ----

  /** The user edits the files, or the tool refuses or installs a selection. */
  datatype Act = Edit(files: Files) | Install(intended: Entries)

  function Perform(home: Home, act: Act): Home {
    match act
    case Edit(files) => Home(files, home.ledger)
    case Install(intended) => if Refused(home.files, home.ledger, intended) then home else InstallSpec(home, intended)
  }

  function PerformAll(home: Home, acts: seq<Act>): Home
    decreases |acts|
  {
    if acts == [] then home else PerformAll(Perform(home, acts[0]), acts[1..])
  }

  /** The entry is there as it was, and not farrier's. */
  predicate Stays(before: Home, after: Home, key: Key)
    requires key in before.files
  {
    key in after.files && after.files[key] == before.files[key] && key !in after.ledger
  }

  /** The install goes through, and intends the entry. */
  predicate PutsThrough(home: Home, act: Act, key: Key) {
    act.Install? && key in act.intended && !Refused(home.files, home.ledger, act.intended)
  }

  /**
   * An install leaves an entry that is not in the ledger alone exactly when the entry is not a null or the install does
   * not put it through: a null is overwritten and taken into the ledger.
   */
  lemma InstallLeavesAloneExactlyWhen(home: Home, intended: Entries, key: Key)
    requires key in home.files && key !in home.ledger
    ensures var act := Install(intended);
      && (Stays(home, Perform(home, act), key) <==> home.files[key].Object? || !PutsThrough(home, act, key))
      && (key in Perform(home, act).ledger <==> !Stays(home, Perform(home, act), key))
  {
    hide Refused, InstallSpec, Significant;
    if !Refused(home.files, home.ledger, intended) {
      RefusedExactlyWhen(home.files, home.ledger, intended);
      if key in intended {
        assert !Blocks(home.files, home.ledger, key, intended[key]);
      }
      InstalledAt(home, intended, key);
    }
  }

  /** The entry is left alone at every point of a history. */
  predicate LeftAlone(home: Home, acts: seq<Act>, key: Key)
    requires key in home.files
    decreases |acts|
  {
    acts == [] || (var next := Perform(home, acts[0]); Stays(home, next, key) && LeftAlone(next, acts[1..], key))
  }

  predicate EverPutsThrough(home: Home, acts: seq<Act>, key: Key)
    decreases |acts|
  {
    acts != [] && (PutsThrough(home, acts[0], key) || EverPutsThrough(Perform(home, acts[0]), acts[1..], key))
  }

  /**
   * Over any history of installs with changing selections and of user edits that leave it, an entry the ledger does not
   * hold stays as it is and out of the ledger, matching the library or not, selected or deselected: exactly when it is
   * not a null or no install of the history puts it through.
   */
  lemma {:induction false} UserEntriesSurviveExactlyWhen(home: Home, acts: seq<Act>, key: Key)
    requires key in home.files && key !in home.ledger
    requires forall act :: act in acts && act.Edit? ==> key in act.files && act.files[key] == home.files[key]
    ensures LeftAlone(home, acts, key) <==> home.files[key].Object? || !EverPutsThrough(home, acts, key)
    decreases |acts|
  {
    if acts != [] {
      hide Perform, PutsThrough;
      var next := Perform(home, acts[0]);
      assert acts[0] in acts;
      if acts[0].Install? {
        InstallLeavesAloneExactlyWhen(home, acts[0].intended, key);
      } else {
        EditStays(home, acts[0], key);
      }
      if Stays(home, next, key) {
        UserEntriesSurviveExactlyWhen(next, acts[1..], key);
      }
    }
  }

  lemma EditStays(home: Home, act: Act, key: Key)
    requires act.Edit? && key in home.files && key !in home.ledger
    requires key in act.files && act.files[key] == home.files[key]
    ensures Stays(home, Perform(home, act), key) && !PutsThrough(home, act, key)
  {
  }

  /** A user's null that is selected is overwritten, and deselected again it is gone. */
  lemma ANullEntryIsTaken(key: Key, value: Value)
    requires key.rel !in OVERRIDES
    ensures var home := Home(map[key := NullEntry], {});
      var selected := Perform(home, Install(map[key := value]));
      && selected == Home(map[key := Object(value)], {key})
      && Perform(selected, Install(map[])) == Home(map[], {})
  {
    var home, intended := Home(map[key := NullEntry], {}), map[key := value];
    var selected, none := InstallSpec(home, intended), Home(map[key := Object(value)], {key});
    RefusedExactlyWhen(home.files, home.ledger, intended);
    forall k ensures (k in selected.files <==> k == key) && (k in selected.ledger <==> k == key) {
      InstalledAt(home, intended, k);
    }
    InstalledAt(home, intended, key);
    SameHome(selected, none);
    RefusedExactlyWhen(none.files, none.ledger, map[]);
    var after := InstallSpec(none, map[]);
    forall k ensures k !in after.files && k !in after.ledger {
      InstalledAt(none, map[], k);
    }
    SameHome(after, Home(map[], {}));
  }

  /** From an empty ledger, whatever an install puts in it the user's files did not hold as it is. */
  lemma LedgerHoldsOnlyWhatWasPut(home: Home, intended: Entries, key: Key)
    requires home.ledger == {}
    ensures key in InstallSpec(home, intended).ledger <==>
      key in intended && (!Holds(home.files, key) || Differs(home.files, key, intended[key]))
  {
    hide Significant;
    InstalledAt(home, intended, key);
  }
}
