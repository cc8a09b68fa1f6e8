/**
 * farrier/farrier/outputs.py and ownership.py: an install that touches only farrier's own files, and a check that agrees
 * with it.
 *
 * The tree is a map from a file's path, relative to the repository, to its text. Folders are the prefixes of paths.
 */
module OwnedFiles {
  import opened Text

  type Path = seq<string>
  type Files = map<Path, string>

  const BUNDLE_HEADS := ["SKILL.md", "hook.yml"]

  /**
   * One install scope: the folders it sweeps, the files it names, and two tests for the patterns of files it assumes are
   * its own. `assumed` is `fnmatch`, whose `*` crosses folders; `globbed` is `glob`, whose `*` does not. `tagged` is
   * `is_tagged`, the mark in a text, and `manifest` is the launcher's context manifest, named only in a repository.
   */
  datatype Managed = Managed(
    dirs: seq<Path>, files: seq<Path>, assumed: Path -> bool, globbed: Path -> bool, tagged: string -> bool,
    manifest: seq<Path>)

  /** A rendered file; `assumed` ones replace whatever is there. */
  datatype Rendered = Rendered(text: string, verbatim: bool, assumed: bool)

  datatype Output = Output(path: Path, content: Rendered)

  // ---- ownership ----

  predicate Generated(files: Files, m: Managed, path: Path) {
    path in files && m.tagged(files[path])
  }

  /** The folder holds the head of a skill or a guard that farrier generated. */
  predicate BundleAt(files: Files, m: Managed, folder: Path) {
    exists i :: 0 <= i < |BUNDLE_HEADS| && Generated(files, m, folder + [BUNDLE_HEADS[i]])
  }

  /** Some folder strictly below `root` and above `path` is a bundle. */
  predicate InBundle(files: Files, m: Managed, path: Path, root: Path) {
    root <= path && exists k :: |root| < k < |path| && BundleAt(files, m, path[..k])
  }

  predicate Owned(files: Files, m: Managed, path: Path, root: Path) {
    Generated(files, m, path) || InBundle(files, m, path, root)
  }

  function OwnedIn(files: Files, m: Managed, dir: Path): set<Path> {
    set path | path in files && dir < path && Owned(files, m, path, dir)
  }

  // ---- removal ----

  function SweepDirs(files: Files, m: Managed, dirs: seq<Path>): Files
    decreases |dirs|
  {
    if dirs == [] then files else SweepDirs(files - OwnedIn(files, m, dirs[0]), m, dirs[1..])
  }

  function DropNamed(files: Files, m: Managed, paths: seq<Path>): Files
    decreases |paths|
  {
    if paths == [] then files
    else DropNamed(if paths[0] in files && Owned(files, m, paths[0], []) then files - {paths[0]} else files, m, paths[1..])
  }

  function Globbed(files: Files, m: Managed): set<Path> {
    set path | path in files && m.globbed(path)
  }

  /** `remove_targets`. */
  function RemoveTargets(files: Files, m: Managed): Files {
    var named := DropNamed(SweepDirs(files, m, m.dirs), m, m.files);
    named - Globbed(named, m)
  }

  // ---- refusal ----

  /** A file, or a folder with a file in it, stands there. */
  predicate Exists(files: Files, path: Path) {
    path in files || exists other :: other in files && path < other
  }

  predicate Held(files: Files, m: Managed, output: Output) {
    Exists(files, output.path) && !output.content.assumed && !m.assumed(output.path) && !Owned(files, m, output.path, [])
  }

  function Conflicts(files: Files, m: Managed, outputs: seq<Output>): (held: seq<Path>)
    ensures held == [] <==> forall i :: 0 <= i < |outputs| ==> !Held(files, m, outputs[i])
  {
    if outputs == [] then []
    else (if Held(files, m, outputs[0]) then [outputs[0].path] else []) + Conflicts(files, m, outputs[1..])
  }

  // ---- writing ----

  /** `expected_text`: the exact text a rendered file installs as. */
  function ExpectedText(content: Rendered): string {
    if content.verbatim then content.text else TrimRight(content.text) + "\n"
  }

  /** A folder stands where the file goes, or a file where one of its folders goes. */
  predicate Blocked(files: Files, path: Path) {
    exists other :: other in files && (path < other || other < path)
  }

  datatype Written = Written(files: Files, blocked: bool)

  function WriteAll(files: Files, outputs: seq<Output>): Written
    decreases |outputs|
  {
    if outputs == [] then Written(files, false)
    else if Blocked(files, outputs[0].path) then Written(files, true)
    else WriteAll(files[outputs[0].path := ExpectedText(outputs[0].content)], outputs[1..])
  }

  datatype Install = Refused(held: seq<Path>) | Stopped(files: Files) | Done(files: Files)

  /** `install_outputs`: refuse, remove, write. A write the file system refuses stops it there. */
  function InstallOutputs(files: Files, m: Managed, outputs: seq<Output>): Install {
    var held := Conflicts(files, m, outputs);
    if held != [] then Refused(held)
    else
      var written := WriteAll(RemoveTargets(files, m), outputs);
      if written.blocked then Stopped(written.files) else Done(written.files)
  }

  /** The tree after an install, whatever came of it. */
  function After(files: Files, install: Install): Files {
    if install.Refused? then files else install.files
  }

  // ---- the check ----

  datatype Drift = Drift(missing: seq<Path>, changed: seq<Path>, extra: set<Path>)

  function Paths(outputs: seq<Output>): set<Path> {
    set i | 0 <= i < |outputs| :: outputs[i].path
  }

  predicate Changed(files: Files, output: Output) {
    Exists(files, output.path) && (output.path !in files || files[output.path] != ExpectedText(output.content))
  }

  function Missing(files: Files, outputs: seq<Output>): seq<Path> {
    if outputs == [] then []
    else (if Exists(files, outputs[0].path) then [] else [outputs[0].path]) + Missing(files, outputs[1..])
  }

  function ChangedPaths(files: Files, outputs: seq<Output>): seq<Path> {
    if outputs == [] then []
    else (if Changed(files, outputs[0]) then [outputs[0].path] else []) + ChangedPaths(files, outputs[1..])
  }

  predicate ExtraIn(files: Files, m: Managed, path: Path, dirs: seq<Path>) {
    exists i :: 0 <= i < |dirs| && path in OwnedIn(files, m, dirs[i])
  }

  predicate ExtraNamed(files: Files, m: Managed, path: Path, named: seq<Path>) {
    path in named && (m.assumed(path) || Owned(files, m, path, []))
  }

  /** Files that are farrier's and no output of this selection. */
  function Extra(files: Files, m: Managed, outputs: seq<Output>): set<Path> {
    set path | path in files && path !in Paths(outputs)
      && (ExtraIn(files, m, path, m.dirs) || ExtraNamed(files, m, path, m.files + m.manifest))
  }

  /** `check_outputs`. */
  function CheckOutputs(files: Files, m: Managed, outputs: seq<Output>): Drift {
    Drift(Missing(files, outputs), ChangedPaths(files, outputs), Extra(files, m, outputs))
  }

  const IN_STEP := Drift([], [], {})

  // ---- ownership only shrinks as files go ----

  predicate PartOf(part: Files, whole: Files) {
    forall path :: path in part ==> path in whole && part[path] == whole[path]
  }

  lemma InBundleShrinks(part: Files, whole: Files, m: Managed, path: Path, root: Path)
    requires PartOf(part, whole) && InBundle(part, m, path, root)
    ensures InBundle(whole, m, path, root)
  {
    var k :| |root| < k < |path| && BundleAt(part, m, path[..k]);
    var i :| 0 <= i < |BUNDLE_HEADS| && Generated(part, m, path[..k] + [BUNDLE_HEADS[i]]);
    assert Generated(whole, m, path[..k] + [BUNDLE_HEADS[i]]);
  }

  lemma OwnedShrinks(part: Files, whole: Files, m: Managed, path: Path, root: Path)
    requires PartOf(part, whole) && Owned(part, m, path, root)
    ensures Owned(whole, m, path, root)
  {
    if InBundle(part, m, path, root) {
      InBundleShrinks(part, whole, m, path, root);
    }
  }

  /** What a folder owns, the repository owns. */
  lemma OwnedFromTheTop(files: Files, m: Managed, path: Path, dir: Path)
    requires Owned(files, m, path, dir)
    ensures Owned(files, m, path, [])
  {
  }

  /** What sweeping leaves is part of what was there and owns nothing in a swept folder; what went was owned in one. */
  lemma {:induction false} SweepDirsExact(files: Files, m: Managed, dirs: seq<Path>)
    ensures var left := SweepDirs(files, m, dirs);
      && PartOf(left, files)
      && (forall path :: path in files && path !in left ==> ExtraIn(files, m, path, dirs))
      && forall path :: path in left ==> !ExtraIn(left, m, path, dirs)
    decreases |dirs|
  {
    if dirs != [] {
      var swept := files - OwnedIn(files, m, dirs[0]);
      var left := SweepDirs(files, m, dirs);
      SweepDirsExact(swept, m, dirs[1..]);
      hide Owned;
      forall path | path in files && path !in left ensures ExtraIn(files, m, path, dirs) {
        if path in swept {
          ExtraShrinks(swept, files, m, path, dirs[1..]);
          ExtraInMore(files, m, path, dirs);
        }
      }
      forall path | path in left ensures !ExtraIn(left, m, path, dirs) {
        NotSweptAgain(files, left, m, dirs, path);
      }
    }
  }

  lemma ExtraInMore(files: Files, m: Managed, path: Path, dirs: seq<Path>)
    requires dirs != [] && ExtraIn(files, m, path, dirs[1..])
    ensures ExtraIn(files, m, path, dirs)
  {
    var i :| 0 <= i < |dirs[1..]| && path in OwnedIn(files, m, dirs[1..][i]);
    assert path in OwnedIn(files, m, dirs[i + 1]);
  }

  lemma NotSweptAgain(files: Files, left: Files, m: Managed, dirs: seq<Path>, path: Path)
    requires dirs != [] && PartOf(left, files) && path in left && path !in OwnedIn(files, m, dirs[0])
    requires !ExtraIn(left, m, path, dirs[1..])
    ensures !ExtraIn(left, m, path, dirs)
  {
    if i :| 0 <= i < |dirs| && path in OwnedIn(left, m, dirs[i]) {
      if i == 0 {
        OwnedShrinks(left, files, m, path, dirs[0]);
      } else {
        assert dirs[1..][i - 1] == dirs[i];
      }
    }
  }

  lemma {:induction false} DropNamedExact(files: Files, m: Managed, paths: seq<Path>)
    ensures var left := DropNamed(files, m, paths);
      && PartOf(left, files)
      && (forall path :: path in files && path !in left ==> path in paths && Owned(files, m, path, []))
      && forall path :: path in left && path in paths ==> !Owned(left, m, path, [])
    decreases |paths|
  {
    if paths != [] {
      var dropped := if paths[0] in files && Owned(files, m, paths[0], []) then files - {paths[0]} else files;
      var left := DropNamed(files, m, paths);
      DropNamedExact(dropped, m, paths[1..]);
      forall path | path in files && path !in left ensures path in paths && Owned(files, m, path, []) {
        if path in dropped {
          OwnedShrinks(dropped, files, m, path, []);
        }
      }
      if paths[0] in left && Owned(left, m, paths[0], []) {
        OwnedShrinks(left, files, m, paths[0], []);
      }
    }
  }

  /** The removal takes only what a swept folder owned, what was named and owned, or what its patterns find. */
  predicate Removable(files: Files, m: Managed, path: Path) {
    ExtraIn(files, m, path, m.dirs) || (path in m.files && Owned(files, m, path, [])) || m.globbed(path)
  }

  /** The removal takes only what is removable, and leaves nothing that is. */
  lemma RemoveTargetsExact(files: Files, m: Managed)
    ensures var left := RemoveTargets(files, m);
      && PartOf(left, files)
      && (forall path :: path in files && path !in left ==> Removable(files, m, path))
      && forall path :: path in left ==> !Removable(left, m, path)
  {
    var swept := SweepDirs(files, m, m.dirs);
    var named := DropNamed(swept, m, m.files);
    var left := RemoveTargets(files, m);
    SweepDirsExact(files, m, m.dirs);
    DropNamedExact(swept, m, m.files);
    hide Owned, ExtraIn, SweepDirs, DropNamed;
    forall path | path in files && path !in left ensures Removable(files, m, path) {
      if path in swept && path !in named {
        OwnedShrinks(swept, files, m, path, []);
      }
    }
    forall path | path in left ensures !Removable(left, m, path) {
      if ExtraIn(left, m, path, m.dirs) {
        ExtraShrinks(left, swept, m, path, m.dirs);
      } else if path in m.files && Owned(left, m, path, []) {
        OwnedShrinks(left, named, m, path, []);
      }
    }
  }

  lemma RemovableIsOwned(files: Files, m: Managed, path: Path)
    requires Removable(files, m, path)
    ensures Owned(files, m, path, []) || m.globbed(path)
  {
    if ExtraIn(files, m, path, m.dirs) {
      var i :| 0 <= i < |m.dirs| && path in OwnedIn(files, m, m.dirs[i]);
      OwnedFromTheTop(files, m, path, m.dirs[i]);
    }
  }

  lemma ExtraShrinks(part: Files, whole: Files, m: Managed, path: Path, dirs: seq<Path>)
    requires PartOf(part, whole) && ExtraIn(part, m, path, dirs)
    ensures ExtraIn(whole, m, path, dirs)
  {
    var i :| 0 <= i < |dirs| && path in OwnedIn(part, m, dirs[i]);
    OwnedShrinks(part, whole, m, path, dirs[i]);
    assert path in OwnedIn(whole, m, dirs[i]);
  }

  // ---- what an install may touch ----

  lemma {:induction false} WritesOnlyOutputs(files: Files, outputs: seq<Output>, path: Path)
    requires path !in Paths(outputs)
    ensures var after := WriteAll(files, outputs).files;
      (path in after <==> path in files) && (path in files ==> after[path] == files[path])
    decreases |outputs|
  {
    if outputs != [] && !Blocked(files, outputs[0].path) {
      hide Blocked;
      PathsStep(outputs);
      WritesOnlyOutputs(files[outputs[0].path := ExpectedText(outputs[0].content)], outputs[1..], path);
    }
  }

  lemma PathsStep(outputs: seq<Output>)
    requires outputs != []
    ensures Paths(outputs) == {outputs[0].path} + Paths(outputs[1..])
  {
    assert forall i :: 0 < i < |outputs| ==> outputs[i] == outputs[1..][i - 1];
    forall path | path in Paths(outputs) ensures path in {outputs[0].path} + Paths(outputs[1..]) {
      var i :| 0 <= i < |outputs| && outputs[i].path == path;
      if i > 0 {
        assert outputs[1..][i - 1].path == path;
      }
    }
  }

  predicate AssumedOutput(outputs: seq<Output>, path: Path) {
    exists i :: 0 <= i < |outputs| && outputs[i].path == path && outputs[i].content.assumed
  }

  predicate Unchanged(before: Files, after: Files, path: Path) {
    (path in after <==> path in before) && (path in before ==> after[path] == before[path])
  }

  /**
   * An install, finished, refused or stopped, changes or deletes a file only if it was farrier's before the install began
   * or is assumed to be, and makes files only where it has outputs.
   */
  lemma InstallTouchesOnlyItsOwn(files: Files, m: Managed, outputs: seq<Output>, path: Path)
    requires !Unchanged(files, After(files, InstallOutputs(files, m, outputs)), path)
    ensures path in files ==>
      Owned(files, m, path, []) || m.assumed(path) || m.globbed(path) || AssumedOutput(outputs, path)
    ensures path !in files ==> path in Paths(outputs)
  {
    RemoveTargetsExact(files, m);
    var left := RemoveTargets(files, m);
    if path in Paths(outputs) {
      var i :| 0 <= i < |outputs| && outputs[i].path == path;
      assert !Held(files, m, outputs[i]);
    } else {
      WritesOnlyOutputs(left, outputs, path);
      if path in files {
        RemovableIsOwned(files, m, path);
      }
    }
  }

  // ---- the check after an install ----

  predicate Distinct(outputs: seq<Output>) {
    forall i, j :: 0 <= i < j < |outputs| ==> outputs[i].path != outputs[j].path
  }

  /** The outputs as a tree of their own. */
  function Rendering(outputs: seq<Output>): Files {
    if outputs == [] then map[] else Rendering(outputs[..|outputs| - 1])[
      outputs[|outputs| - 1].path := ExpectedText(outputs[|outputs| - 1].content)]
  }

  lemma {:induction false} RenderingAt(outputs: seq<Output>)
    requires Distinct(outputs)
    ensures Rendering(outputs).Keys == Paths(outputs)
    ensures forall i :: 0 <= i < |outputs| ==> Rendering(outputs)[outputs[i].path] == ExpectedText(outputs[i].content)
  {
    if outputs != [] {
      var init := outputs[..|outputs| - 1];
      RenderingAt(init);
      assert outputs == init + [outputs[|outputs| - 1]];
      hide ExpectedText;
    }
  }

  lemma {:induction false} DoneWritesAll(files: Files, outputs: seq<Output>)
    requires Distinct(outputs) && !WriteAll(files, outputs).blocked
    ensures forall i :: 0 <= i < |outputs| ==>
      outputs[i].path in WriteAll(files, outputs).files
      && WriteAll(files, outputs).files[outputs[i].path] == ExpectedText(outputs[i].content)
    decreases |outputs|
  {
    if outputs != [] {
      hide Blocked, ExpectedText;
      var rest := outputs[1..];
      DoneWritesAll(files[outputs[0].path := ExpectedText(outputs[0].content)], rest);
      FirstIsNotLater(outputs);
      WritesOnlyOutputs(files[outputs[0].path := ExpectedText(outputs[0].content)], rest, outputs[0].path);
      assert forall i :: 0 < i < |outputs| ==> outputs[i] == rest[i - 1];
    }
  }

  lemma FirstIsNotLater(outputs: seq<Output>)
    requires Distinct(outputs) && outputs != []
    ensures outputs[0].path !in Paths(outputs[1..])
  {
    assert forall i :: 0 <= i < |outputs[1..]| ==> outputs[1..][i] == outputs[i + 1];
  }

  lemma SameAtEveryPath(a: Files, b: Files)
    requires forall path :: Unchanged(a, b, path)
    ensures a == b
  {
    forall path: Path ensures path in a <==> path in b {
      assert Unchanged(a, b, path);
    }
    assert a.Keys == b.Keys;
    forall path | path in a ensures a[path] == b[path] {
      assert Unchanged(a, b, path);
    }
  }

  lemma OverlayAt(left: Files, outputs: seq<Output>, path: Path)
    requires Distinct(outputs) && !WriteAll(left, outputs).blocked
    ensures Unchanged(left + Rendering(outputs), WriteAll(left, outputs).files, path)
  {
    RenderingAt(outputs);
    hide WriteAll, Rendering, ExpectedText;
    if path in Paths(outputs) {
      DoneWritesAll(left, outputs);
      var i :| 0 <= i < |outputs| && outputs[i].path == path;
    } else {
      WritesOnlyOutputs(left, outputs, path);
    }
  }

  /** A finished install leaves what the removal left, with the outputs laid over it. */
  lemma DoneIsOverlay(files: Files, m: Managed, outputs: seq<Output>)
    requires Distinct(outputs) && InstallOutputs(files, m, outputs).Done?
    ensures InstallOutputs(files, m, outputs).files == RemoveTargets(files, m) + Rendering(outputs)
  {
    var left := RemoveTargets(files, m);
    hide RemoveTargets, Unchanged, WriteAll, Rendering;
    forall path ensures Unchanged(left + Rendering(outputs), WriteAll(left, outputs).files, path) {
      OverlayAt(left, outputs, path);
    }
    SameAtEveryPath(left + Rendering(outputs), WriteAll(left, outputs).files);
  }

  /** A file the removal left, in a folder whose bundle head is one of the outputs. */
  ghost predicate Stray(left: Files, m: Managed, outputs: seq<Output>, path: Path) {
    && path in left && path !in Paths(outputs)
    && (StrayIn(m, outputs, path) || (path in m.files + m.manifest && InBundle(Rendering(outputs), m, path, [])))
  }

  ghost predicate StrayIn(m: Managed, outputs: seq<Output>, path: Path) {
    exists i :: 0 <= i < |m.dirs| && m.dirs[i] < path && InBundle(Rendering(outputs), m, path, m.dirs[i])
  }

  /** A named file farrier assumes is its own is one the removal's patterns find. */
  ghost predicate NamesAreSwept(m: Managed) {
    && (forall path :: path in m.files && m.assumed(path) ==> m.globbed(path))
    && forall path :: path in m.manifest ==> m.globbed(path)
  }

  /** With other files over it, a file that was not owned is owned exactly through a head among those. */
  lemma OwnedAfter(left: Files, over: Files, m: Managed, path: Path, root: Path)
    requires path in left && path !in over && !Owned(left, m, path, root)
    ensures Owned(left + over, m, path, root) <==> InBundle(over, m, path, root)
  {
    if InBundle(left + over, m, path, root) {
      var k :| |root| < k < |path| && BundleAt(left + over, m, path[..k]);
      var i :| 0 <= i < |BUNDLE_HEADS| && Generated(left + over, m, path[..k] + [BUNDLE_HEADS[i]]);
      if path[..k] + [BUNDLE_HEADS[i]] in over {
        assert Generated(over, m, path[..k] + [BUNDLE_HEADS[i]]);
      } else {
        assert Generated(left, m, path[..k] + [BUNDLE_HEADS[i]]);
      }
    }
    if InBundle(over, m, path, root) {
      InBundleShrinks(over, left + over, m, path, root);
    }
  }

  lemma ExtraAfter(left: Files, over: Files, m: Managed, path: Path, dirs: seq<Path>)
    requires path in left && path !in over && !ExtraIn(left, m, path, dirs)
    ensures ExtraIn(left + over, m, path, dirs)
       <==> exists i :: 0 <= i < |dirs| && dirs[i] < path && InBundle(over, m, path, dirs[i])
  {
    forall i | 0 <= i < |dirs| && dirs[i] < path
      ensures Owned(left + over, m, path, dirs[i]) <==> InBundle(over, m, path, dirs[i])
    {
      assert path !in OwnedIn(left, m, dirs[i]);
      OwnedAfter(left, over, m, path, dirs[i]);
    }
  }

  /** After a finished install, what the check calls extra is exactly what is astray. */
  lemma ExtraIsStray(files: Files, m: Managed, outputs: seq<Output>, path: Path)
    requires Distinct(outputs) && InstallOutputs(files, m, outputs).Done? && NamesAreSwept(m)
    ensures path in Extra(InstallOutputs(files, m, outputs).files, m, outputs) <==> Stray(RemoveTargets(files, m), m, outputs, path)
  {
    var left, over := RemoveTargets(files, m), Rendering(outputs);
    DoneIsOverlay(files, m, outputs);
    RenderingAt(outputs);
    RemoveTargetsExact(files, m);
    hide RemoveTargets, Rendering, ExtraIn, InBundle, Owned, InstallOutputs, Distinct;
    if path in left && path !in over {
      ExtraAfter(left, over, m, path, m.dirs);
      if path in m.files + m.manifest {
        assert path in m.files && !Owned(left, m, path, []) && !m.assumed(path);
        OwnedAfter(left, over, m, path, []);
      }
    }
  }

  lemma {:induction false} NothingMissing(files: Files, outputs: seq<Output>)
    requires forall i :: 0 <= i < |outputs| ==> Changed(files, outputs[i]) == false && outputs[i].path in files
    ensures Missing(files, outputs) == [] && ChangedPaths(files, outputs) == []
  {
    if outputs != [] {
      assert forall i :: 0 < i < |outputs| ==> outputs[i] == outputs[1..][i - 1];
      hide Changed;
      NothingMissing(files, outputs[1..]);
    }
  }

  /**
   * After a finished install the check finds nothing missing and nothing changed, and nothing extra exactly when no file
   * the removal left sits in the folder of a rendered bundle.
   */
  lemma CheckAfterInstallExactlyWhen(files: Files, m: Managed, outputs: seq<Output>)
    requires Distinct(outputs) && InstallOutputs(files, m, outputs).Done? && NamesAreSwept(m)
    ensures CheckOutputs(InstallOutputs(files, m, outputs).files, m, outputs) == IN_STEP
       <==> forall path :: !Stray(RemoveTargets(files, m), m, outputs, path)
  {
    var after := InstallOutputs(files, m, outputs).files;
    DoneWritesAll(RemoveTargets(files, m), outputs);
    hide ExpectedText, RemoveTargets, Stray, Extra;
    NothingMissing(after, outputs);
    hide InstallOutputs;
    forall path ensures path in Extra(after, m, outputs) <==> Stray(RemoveTargets(files, m), m, outputs, path) {
      ExtraIsStray(files, m, outputs, path);
    }
  }

  // ---- installing again ----

  /** No file stands where another one has a folder. */
  predicate IsTree(files: Files) {
    forall a, b :: a in files && b in files ==> !(a < b)
  }

  lemma {:induction false} WritesKeepTree(files: Files, outputs: seq<Output>)
    requires IsTree(files)
    ensures IsTree(WriteAll(files, outputs).files)
    decreases |outputs|
  {
    if outputs != [] && !Blocked(files, outputs[0].path) {
      hide ExpectedText;
      WritesKeepTree(files[outputs[0].path := ExpectedText(outputs[0].content)], outputs[1..]);
    }
  }

  /** Writing files a tree already has into a part of it is never refused. */
  lemma {:induction false} RewriteIsNotBlocked(part: Files, whole: Files, outputs: seq<Output>)
    requires PartOf(part, whole) && IsTree(whole)
    requires forall i :: 0 <= i < |outputs| ==> outputs[i].path in whole && whole[outputs[i].path] == ExpectedText(outputs[i].content)
    ensures !WriteAll(part, outputs).blocked
    decreases |outputs|
  {
    if outputs != [] {
      hide ExpectedText;
      assert !Blocked(part, outputs[0].path);
      assert forall i :: 0 < i < |outputs| ==> outputs[i] == outputs[1..][i - 1];
      RewriteIsNotBlocked(part[outputs[0].path := ExpectedText(outputs[0].content)], whole, outputs[1..]);
    }
  }

  /** Every output carries farrier's mark, sits in a bundle it renders, or is assumed. */
  predicate Marked(m: Managed, outputs: seq<Output>) {
    forall i :: 0 <= i < |outputs| ==>
      outputs[i].content.assumed || m.assumed(outputs[i].path) || Owned(Rendering(outputs), m, outputs[i].path, [])
  }

  lemma MarkedIsNotHeld(left: Files, m: Managed, outputs: seq<Output>)
    requires Distinct(outputs) && Marked(m, outputs)
    ensures Conflicts(left + Rendering(outputs), m, outputs) == []
  {
    var over := Rendering(outputs);
    forall i | 0 <= i < |outputs| ensures !Held(left + over, m, outputs[i]) {
      if Owned(over, m, outputs[i].path, []) {
        OwnedShrinks(over, left + over, m, outputs[i].path, []);
      }
    }
  }

  lemma RemovedIsExtra(files: Files, m: Managed, outputs: seq<Output>, path: Path)
    requires Distinct(outputs) && InstallOutputs(files, m, outputs).Done? && path !in Paths(outputs)
    requires var after := InstallOutputs(files, m, outputs).files; path in after && path !in RemoveTargets(after, m)
    ensures path in Extra(InstallOutputs(files, m, outputs).files, m, outputs)
  {
    DoneIsOverlay(files, m, outputs);
    RenderingAt(outputs);
    RemoveTargetsExact(files, m);
    RemoveTargetsExact(InstallOutputs(files, m, outputs).files, m);
    hide RemoveTargets, Rendering, InstallOutputs, Distinct, ExtraIn, Owned;
  }

  /** When the check finds nothing, all a second install removes is what it writes again. */
  lemma RemovesOnlyOutputs(files: Files, m: Managed, outputs: seq<Output>)
    requires Distinct(outputs) && InstallOutputs(files, m, outputs).Done?
    requires Extra(InstallOutputs(files, m, outputs).files, m, outputs) == {}
    ensures var after := InstallOutputs(files, m, outputs).files; RemoveTargets(after, m) + Rendering(outputs) == after
  {
    var after, over := InstallOutputs(files, m, outputs).files, Rendering(outputs);
    DoneIsOverlay(files, m, outputs);
    RenderingAt(outputs);
    RemoveTargetsExact(files, m);
    RemoveTargetsExact(after, m);
    hide RemoveTargets, Rendering, InstallOutputs, Distinct, ExtraIn, Owned;
    var again := RemoveTargets(after, m);
    forall path ensures Unchanged(again + over, after, path) {
      if path in after && path !in over && path !in again {
        RemovedIsExtra(files, m, outputs, path);
      }
    }
    SameAtEveryPath(again + over, after);
  }

  /** In a tree, after an install the check is content with, installing the same outputs again changes nothing. */
  lemma SecondInstallChangesNothing(files: Files, m: Managed, outputs: seq<Output>)
    requires IsTree(files) && Distinct(outputs) && Marked(m, outputs) && InstallOutputs(files, m, outputs).Done?
    requires CheckOutputs(InstallOutputs(files, m, outputs).files, m, outputs) == IN_STEP
    ensures var after := InstallOutputs(files, m, outputs).files; InstallOutputs(after, m, outputs) == Done(after)
  {
    var left, after := RemoveTargets(files, m), InstallOutputs(files, m, outputs).files;
    DoneIsOverlay(files, m, outputs);
    MarkedIsNotHeld(left, m, outputs);
    RemovesOnlyOutputs(files, m, outputs);
    RemoveTargetsExact(files, m);
    RemoveTargetsExact(after, m);
    RenderingAt(outputs);
    WritesKeepTree(left, outputs);
    hide RemoveTargets, Rendering, Removable, Marked, ExpectedText;
    RewriteIsNotBlocked(RemoveTargets(after, m), after, outputs);
    hide WriteAll;
    DoneIsOverlay(after, m, outputs);
  }

  // ---- what the next install takes ----

  function GeneratedIn(files: Files, m: Managed, dir: Path): set<Path> {
    set path | path in files && dir < path && Generated(files, m, path)
  }

  /**
   * Ownership goes with the heads: once the files that carry the mark are gone, nothing in the folder is owned. So a sweep
   * must list what it deletes before it deletes the first.
   */
  lemma OwnershipGoesWithTheHeads(files: Files, m: Managed, dir: Path)
    ensures OwnedIn(files - GeneratedIn(files, m, dir), m, dir) == {}
  {
    var left := files - GeneratedIn(files, m, dir);
    forall path | path in left && dir < path ensures !Owned(left, m, path, dir) {
      forall k, i | |dir| < k < |path| && 0 <= i < |BUNDLE_HEADS|
        ensures !Generated(left, m, path[..k] + [BUNDLE_HEADS[i]])
      {
        assert dir < path[..k] + [BUNDLE_HEADS[i]];
      }
    }
  }

  predicate Nested(a: Path, b: Path) {
    a <= b || b <= a
  }

  predicate Apart(dirs: seq<Path>) {
    forall i, j :: 0 <= i < j < |dirs| ==> !Nested(dirs[i], dirs[j])
  }

  /** Sweeping one folder does not make another one's files look like the user's. */
  lemma SweepSparesOthers(files: Files, m: Managed, dir: Path, other: Path, path: Path)
    requires !Nested(dir, other) && path in OwnedIn(files, m, other)
    ensures path in OwnedIn(files - OwnedIn(files, m, dir), m, other)
  {
    var left := files - OwnedIn(files, m, dir);
    NotUnderBoth(dir, other, path);
    if !Generated(files, m, path) {
      var k :| |other| < k < |path| && BundleAt(files, m, path[..k]);
      var i :| 0 <= i < |BUNDLE_HEADS| && Generated(files, m, path[..k] + [BUNDLE_HEADS[i]]);
      var head := path[..k] + [BUNDLE_HEADS[i]];
      assert other < head;
      NotUnderBoth(dir, other, head);
      assert Generated(left, m, head);
      assert BundleAt(left, m, path[..k]);
    }
  }

  lemma PrefixesNest(a: Path, b: Path, path: Path)
    requires a <= path && b <= path
    ensures Nested(a, b)
  {
    assert a == path[..|a|] && b == path[..|b|];
    if |a| <= |b| {
      assert a == b[..|a|];
    } else {
      assert b == a[..|b|];
    }
  }

  lemma NotUnderBoth(a: Path, b: Path, path: Path)
    requires !Nested(a, b) && b < path
    ensures !(a < path)
  {
    if a < path {
      PrefixesNest(a, b, path);
    }
  }

  lemma {:induction false} SweepTakesAllOwned(files: Files, m: Managed, dirs: seq<Path>, path: Path)
    requires Apart(dirs) && ExtraIn(files, m, path, dirs)
    ensures path !in SweepDirs(files, m, dirs)
    decreases |dirs|
  {
    var i :| 0 <= i < |dirs| && path in OwnedIn(files, m, dirs[i]);
    var swept := files - OwnedIn(files, m, dirs[0]);
    SweepDirsExact(swept, m, dirs[1..]);
    if i > 0 {
      SweepSparesOthers(files, m, dirs[0], dirs[i], path);
      assert dirs[1..][i - 1] == dirs[i];
      hide OwnedIn;
      SweepTakesAllOwned(swept, m, dirs[1..], path);
    }
  }

  /**
   * A user's file in a rendered bundle's folder survives the install that puts the bundle there, and is deleted by the
   * next install of the same selection.
   */
  lemma StrayGoesWithTheNextInstall(files: Files, m: Managed, outputs: seq<Output>, path: Path)
    requires Distinct(outputs) && Marked(m, outputs) && Apart(m.dirs) && InstallOutputs(files, m, outputs).Done?
    requires path in RemoveTargets(files, m) && path !in Paths(outputs) && StrayIn(m, outputs, path)
    ensures var after := InstallOutputs(files, m, outputs).files;
      path in after && path !in After(after, InstallOutputs(after, m, outputs))
  {
    var left, after := RemoveTargets(files, m), InstallOutputs(files, m, outputs).files;
    DoneIsOverlay(files, m, outputs);
    RenderingAt(outputs);
    MarkedIsNotHeld(left, m, outputs);
    StrayIsExtra(left, m, outputs, path);
    SweepTakesAllOwned(after, m, m.dirs, path);
    DropNamedExact(SweepDirs(after, m, m.dirs), m, m.files);
    hide SweepDirs, DropNamed, ExtraIn, Marked, StrayIn, Distinct;
    assert path !in RemoveTargets(after, m);
    WritesOnlyOutputs(RemoveTargets(after, m), outputs, path);
  }

  /** One swept folder, no named files, no patterns, and a mark that is the text "mark". */
  const ONE_FOLDER := Managed([["s"]], [], _ => false, _ => false, (text: string) => text == "mark", [])

  const ONE_SKILL := [Output(["s", "x", "SKILL.md"], Rendered("mark", true, false))]

  const NOTES := ["s", "x", "notes"]

  /** A user's notes in the folder a skill is about to be rendered into are such a file. */
  lemma NotesAreAStray()
    ensures var files: Files := map[NOTES := "mine"];
      && Distinct(ONE_SKILL) && Marked(ONE_FOLDER, ONE_SKILL) && Apart(ONE_FOLDER.dirs)
      && InstallOutputs(files, ONE_FOLDER, ONE_SKILL).Done?
      && NOTES in RemoveTargets(files, ONE_FOLDER) && NOTES !in Paths(ONE_SKILL) && StrayIn(ONE_FOLDER, ONE_SKILL, NOTES)
  {
    var m, files, head := ONE_FOLDER, map[NOTES := "mine"], ["s", "x", "SKILL.md"];
    NothingToRemove();
    assert ONE_SKILL[..0] == [];
    assert Rendering(ONE_SKILL) == map[head := "mark"];
    assert Generated(Rendering(ONE_SKILL), m, head);
    assert NOTES[..2] == ["s", "x"] && NOTES[..2] + [BUNDLE_HEADS[0]] == head;
    assert BundleAt(Rendering(ONE_SKILL), m, NOTES[..2]);
    assert ["s"] == NOTES[..1] && ["s"] < NOTES;
    assert InBundle(Rendering(ONE_SKILL), m, NOTES, ["s"]);
    assert m.dirs[0] == ["s"];
    assert head !in files && !(head < NOTES) && !(NOTES < head);
    assert NOTES != head by { assert NOTES[2] == "notes" && |NOTES[2]| == 5 && |head[2]| == 8; }
    assert ONE_SKILL[1..] == [];
  }

  /** They survive the first install and are gone after the second. */
  lemma NotesGoWithTheSecondInstall()
    ensures var once := After(map[NOTES := "mine"], InstallOutputs(map[NOTES := "mine"], ONE_FOLDER, ONE_SKILL));
      NOTES in once && NOTES !in After(once, InstallOutputs(once, ONE_FOLDER, ONE_SKILL))
  {
    NotesAreAStray();
    hide InstallOutputs, Marked, Apart, StrayIn, RemoveTargets;
    StrayGoesWithTheNextInstall(map[NOTES := "mine"], ONE_FOLDER, ONE_SKILL, NOTES);
  }

  lemma NothingToRemove()
    ensures var files: Files := map[NOTES := "mine"]; RemoveTargets(files, ONE_FOLDER) == files
  {
    var m, files := ONE_FOLDER, map[NOTES := "mine"];
    forall folder: Path ensures !BundleAt(files, m, folder) {
    }
    assert OwnedIn(files, m, ["s"]) == {};
    assert m.dirs[1..] == [];
    assert Globbed(files, m) == {};
  }

  lemma StrayIsExtra(left: Files, m: Managed, outputs: seq<Output>, path: Path)
    requires path in left && path !in Rendering(outputs) && StrayIn(m, outputs, path)
    ensures ExtraIn(left + Rendering(outputs), m, path, m.dirs)
  {
    var i :| 0 <= i < |m.dirs| && m.dirs[i] < path && InBundle(Rendering(outputs), m, path, m.dirs[i]);
    InBundleShrinks(Rendering(outputs), left + Rendering(outputs), m, path, m.dirs[i]);
    assert path in OwnedIn(left + Rendering(outputs), m, m.dirs[i]);
  }

  // ---- the methods ----

  class Tree {
    var files: Files

    constructor (found: Files)
      ensures files == found
    {
      files := found;
    }

    /** `is_owned`: the file's own mark, then the bundle heads of the folders above it, up to `root`. */
    method IsOwned(m: Managed, path: Path, root: Path) returns (owned: bool)
      requires root < path
      ensures owned == Owned(files, m, path, root)
    {
      if Generated(files, m, path) {
        return true;
      }
      var parent := path[..|path| - 1];
      while root < parent
        invariant root <= parent < path
        invariant forall k :: |parent| < k < |path| ==> !BundleAt(files, m, path[..k])
        decreases |parent|
      {
        assert parent == path[..|parent|];
        if BundleAt(files, m, parent) {
          return true;
        }
        parent := parent[..|parent| - 1];
      }
      return false;
    }

    /** `sweep`: list everything owned under the folder, then unlink it. */
    method Sweep(m: Managed, dir: Path)
      modifies this
      ensures files == old(files) - OwnedIn(old(files), m, dir)
    {
      var owned := OwnedIn(files, m, dir);
      ghost var all := owned;
      while owned != {}
        invariant owned <= all && files == old(files) - (all - owned)
        decreases |owned|
      {
        var path :| path in owned;
        files := files - {path};
        owned := owned - {path};
      }
    }

    /** `remove_targets`. */
    method Remove(m: Managed)
      modifies this
      ensures files == RemoveTargets(old(files), m)
    {
      for i := 0 to |m.dirs|
        invariant SweepDirs(files, m, m.dirs[i..]) == SweepDirs(old(files), m, m.dirs)
      {
        assert m.dirs[i..][0] == m.dirs[i] && m.dirs[i..][1..] == m.dirs[i + 1..];
        Sweep(m, m.dirs[i]);
      }
      ghost var swept := files;
      for i := 0 to |m.files|
        invariant DropNamed(files, m, m.files[i..]) == DropNamed(swept, m, m.files)
      {
        assert m.files[i..][0] == m.files[i] && m.files[i..][1..] == m.files[i + 1..];
        if m.files[i] in files && Owned(files, m, m.files[i], []) {
          files := files - {m.files[i]};
        }
      }
      files := files - Globbed(files, m);
    }

    /** `install_outputs`, without the launcher's extras: refuse, remove, write in order. */
    method Install(m: Managed, outputs: seq<Output>) returns (held: seq<Path>, stopped: bool)
      modifies this
      ensures files == After(old(files), InstallOutputs(old(files), m, outputs))
      ensures held == Conflicts(old(files), m, outputs) && (stopped <==> InstallOutputs(old(files), m, outputs).Stopped?)
    {
      held, stopped := Conflicts(files, m, outputs), false;
      if held != [] {
        return;
      }
      Remove(m);
      ghost var left := files;
      for i := 0 to |outputs|
        invariant WriteAll(files, outputs[i..]) == WriteAll(left, outputs)
      {
        assert outputs[i..][0] == outputs[i] && outputs[i..][1..] == outputs[i + 1..];
        if Blocked(files, outputs[i].path) {
          stopped := true;
          return;
        }
        files := files[outputs[i].path := ExpectedText(outputs[i].content)];
      }
    }

    /** The first half of `check_outputs`: what is missing and what differs. */
    method CheckRendered(outputs: seq<Output>) returns (missing: seq<Path>, changed: seq<Path>)
      ensures missing == Missing(files, outputs) && changed == ChangedPaths(files, outputs)
    {
      missing, changed := [], [];
      for i := 0 to |outputs|
        invariant missing + Missing(files, outputs[i..]) == Missing(files, outputs)
        invariant changed + ChangedPaths(files, outputs[i..]) == ChangedPaths(files, outputs)
      {
        hide ExpectedText;
        assert outputs[i..][0] == outputs[i] && outputs[i..][1..] == outputs[i + 1..];
        var path := outputs[i].path;
        if !Exists(files, path) {
          missing := missing + [path];
        } else if Changed(files, outputs[i]) {
          changed := changed + [path];
        }
      }
    }

    /** The second half: what is farrier's, in a swept folder or by name, and no output. */
    method CheckExtra(m: Managed, expected: set<Path>) returns (extra: set<Path>)
      ensures extra == set path | path in files && path !in expected
        && (ExtraIn(files, m, path, m.dirs) || ExtraNamed(files, m, path, m.files + m.manifest))
    {
      extra := {};
      for i := 0 to |m.dirs|
        invariant extra == set path | path in files && path !in expected && ExtraIn(files, m, path, m.dirs[..i])
      {
        ExtraInSnoc(files, m, m.dirs, i);
        hide ExtraIn;
        extra := extra + (OwnedIn(files, m, m.dirs[i]) - expected);
      }
      assert m.dirs[..|m.dirs|] == m.dirs;
      var named := m.files + m.manifest;
      for i := 0 to |named|
        invariant extra == set path | path in files && path !in expected
          && (ExtraIn(files, m, path, m.dirs) || ExtraNamed(files, m, path, named[..i]))
      {
        hide ExtraIn, Owned;
        assert named[..i + 1] == named[..i] + [named[i]];
        var path := named[i];
        if path !in expected && path in files && (m.assumed(path) || Owned(files, m, path, [])) {
          extra := extra + {path};
        }
      }
      assert named[..|named|] == named;
    }

    /** `check_outputs`, without the fences. */
    method Check(m: Managed, outputs: seq<Output>) returns (drift: Drift)
      ensures drift == CheckOutputs(files, m, outputs)
    {
      var missing, changed := CheckRendered(outputs);
      var extra := CheckExtra(m, Paths(outputs));
      drift := Drift(missing, changed, extra);
    }
  }

  lemma ExtraInSnoc(files: Files, m: Managed, dirs: seq<Path>, i: nat)
    requires i < |dirs|
    ensures forall path :: ExtraIn(files, m, path, dirs[..i + 1]) <==>
      ExtraIn(files, m, path, dirs[..i]) || path in OwnedIn(files, m, dirs[i])
  {
    hide OwnedIn;
    assert forall j :: 0 <= j < i ==> dirs[..i + 1][j] == dirs[..i][j];
    assert dirs[..i + 1][i] == dirs[i];
  }
}
