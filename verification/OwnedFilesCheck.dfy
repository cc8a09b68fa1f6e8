/** farrier/farrier/outputs.py and ownership.py: what is farrier's, and what the check reports, on any tree whatever. */
module OwnedFilesCheck {
  import opened Text
  import opened OwnedFiles

  // ---- what is farrier's ----

  predicate Marked(files: Files, m: Managed, path: Path) {
    path in files && m.tagged(files[path])
  }

  /** A folder above the file and below the root has a marked SKILL.md or hook.yml. */
  ghost predicate Bundled(files: Files, m: Managed, path: Path, root: Path) {
    exists folder: Path :: IsBundleOf(files, m, path, root, folder)
  }

  ghost predicate IsBundleOf(files: Files, m: Managed, path: Path, root: Path, folder: Path) {
    root < folder < path && (Marked(files, m, folder + ["SKILL.md"]) || Marked(files, m, folder + ["hook.yml"]))
  }

  /** A file is farrier's if it carries the mark, or a bundle it lies in does. */
  lemma OwnedExactlyWhen(files: Files, m: Managed, path: Path, root: Path)
    ensures Owned(files, m, path, root) <==> Marked(files, m, path) || Bundled(files, m, path, root)
  {
    if InBundle(files, m, path, root) {
      var k :| |root| < k < |path| && BundleAt(files, m, path[..k]);
      var i :| 0 <= i < |BUNDLE_HEADS| && Generated(files, m, path[..k] + [BUNDLE_HEADS[i]]);
      assert root == path[..|root|] && path[..k][..|root|] == root;
      assert IsBundleOf(files, m, path, root, path[..k]);
    }
    if folder: Path :| IsBundleOf(files, m, path, root, folder) {
      assert path[..|folder|] == folder;
      var i := if Marked(files, m, folder + ["SKILL.md"]) then 0 else 1;
      assert Generated(files, m, folder + [BUNDLE_HEADS[i]]);
      assert BundleAt(files, m, path[..|folder|]);
    }
  }

  // ---- the text a rendering installs as ----

  predicate AllSpace(s: string) {
    forall i :: 0 <= i < |s| ==> IsSpace(s[i])
  }

  /** A verbatim text as it is, any other without its trailing space and with one newline. */
  ghost predicate InstallsAs(content: Rendered, text: string) {
    if content.verbatim then text == content.text
    else exists body, space :: EndsIn(content.text, body, space) && text == body + "\n"
  }

  ghost predicate EndsIn(text: string, body: string, space: string) {
    text == body + space && AllSpace(space) && (body != "" ==> !IsSpace(body[|body| - 1]))
  }

  lemma {:induction false} TrimRightEnds(text: string)
    ensures |TrimRight(text)| <= |text| && EndsIn(text, TrimRight(text), text[|TrimRight(text)|..])
  {
    hide IsSpace;
    if text != "" && IsSpace(text[|text| - 1]) {
      var shorter := text[..|text| - 1];
      TrimRightEnds(shorter);
      var body := TrimRight(text);
      assert text == shorter + [text[|text| - 1]];
      assert text[|body|..] == shorter[|body|..] + [text[|text| - 1]];
    } else {
      assert text[|text|..] == "" && text + "" == text;
    }
  }

  lemma EndsInOneWay(text: string, a: string, s: string, b: string, t: string)
    requires EndsIn(text, a, s) && EndsIn(text, b, t)
    ensures a == b
  {
    BodyEndsIt(text, a, s, b, t);
    BodyEndsIt(text, b, t, a, s);
    assert a == text[..|a|] && b == text[..|b|];
  }

  lemma BodyEndsIt(text: string, a: string, s: string, b: string, t: string)
    requires EndsIn(text, a, s) && EndsIn(text, b, t)
    ensures |b| <= |a|
  {
    assert b != "" ==> text[|b| - 1] == b[|b| - 1];
    assert forall i :: |a| <= i < |text| ==> text[i] == s[i - |a|];
  }

  lemma ExpectedTextExactlyWhen(content: Rendered, text: string)
    ensures text == ExpectedText(content) <==> InstallsAs(content, text)
  {
    if !content.verbatim {
      TrimRightEnds(content.text);
      var body := TrimRight(content.text);
      assert InstallsAs(content, body + "\n");
      if InstallsAs(content, text) {
        var other, space :| EndsIn(content.text, other, space) && text == other + "\n";
        EndsInOneWay(content.text, body, content.text[|body|..], other, space);
      }
    }
  }

  // ---- what the check reports ----

  /** Neither a file nor a folder stands there. */
  predicate Nothing(files: Files, path: Path) {
    path !in files && forall other :: other in files ==> !(path < other)
  }

  /** The file stands there with the text the output installs as. */
  ghost predicate InPlace(files: Files, output: Output) {
    output.path in files && InstallsAs(output.content, files[output.path])
  }

  /** A file of farrier's by this scope: in a folder it sweeps, or one of those it names. */
  ghost predicate OfTheScope(files: Files, m: Managed, path: Path) {
    || (exists dir :: dir in m.dirs && dir < path && (Marked(files, m, path) || Bundled(files, m, path, dir)))
    || (path in m.files + m.manifest && (m.assumed(path) || Marked(files, m, path) || Bundled(files, m, path, [])))
  }

  lemma ExistsExactlyWhen(files: Files, path: Path)
    ensures Exists(files, path) <==> !Nothing(files, path)
  {
  }

  lemma {:induction false} MissingExactlyWhen(files: Files, outputs: seq<Output>, path: Path)
    ensures path in Missing(files, outputs) <==> exists output :: output in outputs && output.path == path && Nothing(files, path)
  {
    if outputs != [] {
      MissingExactlyWhen(files, outputs[1..], path);
      ExistsExactlyWhen(files, outputs[0].path);
      hide Nothing, Exists;
      assert outputs == [outputs[0]] + outputs[1..];
    }
  }

  lemma ChangedIsNotInPlace(files: Files, output: Output)
    ensures Changed(files, output) <==> !Nothing(files, output.path) && !InPlace(files, output)
  {
    ExistsExactlyWhen(files, output.path);
    if output.path in files {
      ExpectedTextExactlyWhen(output.content, files[output.path]);
    }
    hide Exists, ExpectedText, InstallsAs;
  }

  lemma {:induction false} ChangedExactlyWhen(files: Files, outputs: seq<Output>, path: Path)
    ensures path in ChangedPaths(files, outputs) <==>
      exists output :: output in outputs && output.path == path && !Nothing(files, path) && !InPlace(files, output)
  {
    if outputs != [] {
      ChangedExactlyWhen(files, outputs[1..], path);
      ChangedIsNotInPlace(files, outputs[0]);
      hide Nothing, Changed, InPlace;
      assert outputs == [outputs[0]] + outputs[1..];
    }
  }

  lemma SweptExactlyWhen(files: Files, m: Managed, path: Path)
    requires path in files
    ensures ExtraIn(files, m, path, m.dirs) <==>
      exists dir :: dir in m.dirs && dir < path && (Marked(files, m, path) || Bundled(files, m, path, dir))
  {
    hide Owned, Bundled;
    if ExtraIn(files, m, path, m.dirs) {
      var i :| 0 <= i < |m.dirs| && path in OwnedIn(files, m, m.dirs[i]);
      OwnedExactlyWhen(files, m, path, m.dirs[i]);
      assert m.dirs[i] in m.dirs && m.dirs[i] < path;
    }
    if dir :| dir in m.dirs && dir < path && (Marked(files, m, path) || Bundled(files, m, path, dir)) {
      OwnedExactlyWhen(files, m, path, dir);
      var i :| 0 <= i < |m.dirs| && m.dirs[i] == dir;
      assert path in OwnedIn(files, m, m.dirs[i]);
    }
  }

  lemma ExtraExactlyWhen(files: Files, m: Managed, outputs: seq<Output>, path: Path)
    ensures path in Extra(files, m, outputs) <==>
      path in files && (forall output :: output in outputs ==> output.path != path) && OfTheScope(files, m, path)
  {
    hide Owned, Bundled, ExtraIn;
    if path in files {
      SweptExactlyWhen(files, m, path);
      OwnedExactlyWhen(files, m, path, []);
    }
    if path in Paths(outputs) {
      var i :| 0 <= i < |outputs| && outputs[i].path == path;
      assert outputs[i] in outputs;
    }
  }

  /**
   * On any tree the check reports a path missing exactly when it is an output's and nothing stands there, changed exactly
   * when something does and it is no file with the text the output installs as, and extra exactly when it is a file of
   * farrier's in this scope and no output's.
   */
  lemma ReportsExactly(files: Files, m: Managed, outputs: seq<Output>, path: Path)
    ensures var drift := CheckOutputs(files, m, outputs);
      && (path in drift.missing <==> exists output :: output in outputs && output.path == path && Nothing(files, path))
      && (path in drift.changed <==>
            exists output :: output in outputs && output.path == path && !Nothing(files, path) && !InPlace(files, output))
      && (path in drift.extra <==>
            path in files && (forall output :: output in outputs ==> output.path != path) && OfTheScope(files, m, path))
  {
    hide Missing, ChangedPaths, Extra, Nothing, InPlace, OfTheScope;
    MissingExactlyWhen(files, outputs, path);
    ChangedExactlyWhen(files, outputs, path);
    ExtraExactlyWhen(files, m, outputs, path);
  }

  /** The check is content exactly when every output is in place and no other file of farrier's is left. */
  lemma InStepExactlyWhen(files: Files, m: Managed, outputs: seq<Output>)
    ensures CheckOutputs(files, m, outputs) == IN_STEP <==>
      && (forall output :: output in outputs ==> InPlace(files, output))
      && (forall path :: path in files && OfTheScope(files, m, path) ==> exists output :: output in outputs && output.path == path)
  {
    hide OfTheScope, InPlace, CheckOutputs;
    var drift := CheckOutputs(files, m, outputs);
    forall path
      ensures path in drift.missing <==> exists output :: output in outputs && output.path == path && Nothing(files, path)
      ensures path in drift.changed <==>
        exists output :: output in outputs && output.path == path && !Nothing(files, path) && !InPlace(files, output)
      ensures path in drift.extra <==>
        path in files && (forall output :: output in outputs ==> output.path != path) && OfTheScope(files, m, path)
    {
      ReportsExactly(files, m, outputs, path);
    }
    forall output | output in outputs
      ensures InPlace(files, output) <==> output.path !in drift.missing && !(!Nothing(files, output.path) && !InPlace(files, output))
    {
      InPlaceIsThere(files, output);
    }
    assert drift.missing == [] <==> forall path :: path !in drift.missing by {
      assert drift.missing != [] ==> drift.missing[0] in drift.missing;
    }
    assert drift.changed == [] <==> forall path :: path !in drift.changed by {
      assert drift.changed != [] ==> drift.changed[0] in drift.changed;
    }
  }

  lemma InPlaceIsThere(files: Files, output: Output)
    ensures InPlace(files, output) ==> !Nothing(files, output.path)
  {
  }
}
