/** `ConfiguredRequirejsModule`: which templates feed a bundle, how they are
    laid out in the optimizer's source directory, and how a bundle is put
    together from the bootstrap, the optimizer's output and the configuration. */
module Requirejs {
  import opened Outcomes
  import opened Text
  import opened Templates
  import opened Loader

  /** The configured module: the template engine, `config_file`, `path.nodejs`,
      `passthrough_extensions`, the asset framework's `tpl_autobundle` flag
      and the disk the module reads from. None of them changes after start-up. */
  datatype Configured = Configured(
    tpl: Engine,
    configFile: string,
    nodejsPath: string,
    passthroughExtensions: seq<string>,
    autobundle: bool,
    disk: Disk)

  // ---------------------------------------------------------------------------
  // Source paths (`_iter_paths`)

  /** A match of the regular expression `\.(ext)$` with `ext` escaped: the path
      ends with a dot and `ext`, possibly followed by one final newline (where
      Python's `$` also matches). */
  predicate HasExtension(path: string, ext: string)
    ensures HasExtension(path, ext) <==>
      || (exists i :: 0 <= i < |path| && path[i] == '.' && path[i + 1..] == ext)
      || (exists i :: 0 <= i < |path| && path[i] == '.' && path[i + 1..] == ext + "\n")
  {
    EndsWithDot(path, ext);
    EndsWithDot(path, ext + "\n");
    assert "." + ext + "\n" == "." + (ext + "\n");
    EndsWith(path, "." + ext) || EndsWith(path, "." + ext + "\n")
  }

  /** `path` ends with `.` and `tail` exactly when some dot in it is followed by `tail`. */
  lemma EndsWithDot(path: string, tail: string)
    ensures EndsWith(path, "." + tail) <==>
      exists i :: 0 <= i < |path| && path[i] == '.' && path[i + 1..] == tail
  {
    if EndsWith(path, "." + tail) {
      var i := |path| - |tail| - 1;
      assert path[i..] == "." + tail;
      assert path[i] == '.' && path[i + 1..] == tail;
    }
    forall i | 0 <= i < |path| && path[i] == '.' && path[i + 1..] == tail
      ensures EndsWith(path, "." + tail)
    {
      assert path[i..] == [path[i]] + path[i + 1..];
    }
  }

  /** A match of `\.(e1|e2|...)$` built from the passthrough extensions. */
  predicate HasAnyExtension(path: string, exts: seq<string>)
    ensures exts == [] ==> !HasAnyExtension(path, exts)
    ensures HasAnyExtension(path, exts) ==> '.' in path
  {
    exists ext :: ext in exts && HasExtension(path, ext)
  }

  /** The paths of `paths` that carry one of the extensions, in their order. */
  function Passthrough(paths: seq<string>, exts: seq<string>): seq<string> {
    if paths == [] then []
    else (if HasAnyExtension(paths[0], exts) then [paths[0]] else []) + Passthrough(paths[1..], exts)
  }

  /** `_iter_paths()`: every JavaScript template, then, when passthrough
      extensions are configured, every template carrying one of them. */
  function IterSources(m: Configured): (r: seq<string>)
    ensures forall p :: p in r <==>
      p in m.tpl.jsPaths
      || (m.passthroughExtensions != [] && p in m.tpl.allPaths && HasAnyExtension(p, m.passthroughExtensions))
  {
    forall p ensures p in Passthrough(m.tpl.allPaths, m.passthroughExtensions)
                     <==> p in m.tpl.allPaths && HasAnyExtension(p, m.passthroughExtensions) {
      PassthroughMembership(m.tpl.allPaths, m.passthroughExtensions, p);
    }
    m.tpl.jsPaths
      + (if m.passthroughExtensions != [] then Passthrough(m.tpl.allPaths, m.passthroughExtensions) else [])
  }

  /** Filtering keeps each matching path as often as it occurs and drops the others. */
  lemma {:induction false} PassthroughCount(paths: seq<string>, exts: seq<string>, p: string)
    ensures multiset(Passthrough(paths, exts))[p]
      == if HasAnyExtension(p, exts) then multiset(paths)[p] else 0
  {
    if paths != [] {
      PassthroughCount(paths[1..], exts, p);
      assert paths == [paths[0]] + paths[1..];
    }
  }

  /** Filtering keeps the order of the paths: it distributes over concatenation. */
  lemma {:induction false} PassthroughAppend(a: seq<string>, b: seq<string>, exts: seq<string>)
    ensures Passthrough(a + b, exts) == Passthrough(a, exts) + Passthrough(b, exts)
  {
    if a != [] {
      PassthroughAppend(a[1..], b, exts);
      var head := if HasAnyExtension(a[0], exts) then [a[0]] else [];
      assert (a + b)[0] == a[0] && (a + b)[1..] == a[1..] + b;
      assert Passthrough(a + b, exts) == head + Passthrough(a[1..] + b, exts);
    } else {
      assert a + b == b;
    }
  }

  /** A path is kept exactly when it is among `paths` and carries an extension. */
  lemma PassthroughMembership(paths: seq<string>, exts: seq<string>, p: string)
    ensures p in Passthrough(paths, exts) <==> p in paths && HasAnyExtension(p, exts)
  {
    PassthroughCount(paths, exts, p);
    assert p in Passthrough(paths, exts) <==> multiset(Passthrough(paths, exts))[p] > 0;
    assert p in paths <==> multiset(paths)[p] > 0;
  }

  /** The JavaScript paths come first, unchanged; then every path that carries a
      passthrough extension, once per occurrence in the engine's listing (so a
      JavaScript path with such an extension appears twice). Without
      passthrough extensions only the JavaScript paths are listed. */
  lemma IterSourcesShape(m: Configured)
    ensures |IterSources(m)| >= |m.tpl.jsPaths|
    ensures IterSources(m)[..|m.tpl.jsPaths|] == m.tpl.jsPaths
    ensures m.passthroughExtensions == [] ==> IterSources(m) == m.tpl.jsPaths
    ensures forall p ::
              multiset(IterSources(m))[p]
              == multiset(m.tpl.jsPaths)[p]
                 + (if HasAnyExtension(p, m.passthroughExtensions) then multiset(m.tpl.allPaths)[p] else 0)
  {
    var exts := m.passthroughExtensions;
    assert IterSources(m)[..|m.tpl.jsPaths|] == m.tpl.jsPaths;
    forall p
      ensures multiset(IterSources(m))[p]
        == multiset(m.tpl.jsPaths)[p]
           + (if HasAnyExtension(p, exts) then multiset(m.tpl.allPaths)[p] else 0)
    {
      if exts != [] { PassthroughCount(m.tpl.allPaths, exts, p); }
    }
  }

  /** The extension test accepts a listed extension after a dot, also before
      one trailing newline, and an empty extension list accepts nothing. */
  lemma ExtensionExamples()
    ensures HasAnyExtension("tpl/row.html", ["txt", "html"])
    ensures HasAnyExtension("tpl/row.html\n", ["html"])
    ensures !HasAnyExtension("tpl/row.html", [])
  {
    assert HasExtension("tpl/row.html", "html");
    assert HasExtension("tpl/row.html\n", "html") by {
      assert "tpl/row.html\n"[7..] == ".html\n";
    }
  }

  /** The extension test is case-sensitive. */
  lemma ExtensionCaseSensitive()
    ensures !HasAnyExtension("tpl/row.HTML", ["html"])
  {
    assert !EndsWith("tpl/row.HTML", ".html") by {
      assert "tpl/row.HTML"[8] == 'H';
    }
    assert !EndsWith("tpl/row.HTML", ".html\n") by {
      assert "tpl/row.HTML"[11] != '\n';
    }
    assert !HasExtension("tpl/row.HTML", "html");
  }

  /** The extension test needs the dot before the extension. */
  lemma ExtensionNeedsDot()
    ensures !HasAnyExtension("tpl/rowhtml", ["html"])
  {
    assert !EndsWith("tpl/rowhtml", ".html") by {
      assert "tpl/rowhtml"[6] == 'w';
    }
    assert !EndsWith("tpl/rowhtml", ".html\n") by {
      assert "tpl/rowhtml"[10] != '\n';
    }
    assert !HasExtension("tpl/rowhtml", "html");
  }

  /** `paths or list(_iter_paths())`: an absent or empty list means every source. */
  function SourcePaths(m: Configured, paths: Option<seq<string>>): (r: seq<string>)
    ensures paths.Some? && paths.value != [] ==> r == paths.value
    ensures paths.None? || paths.value == [] ==> r == IterSources(m)
  {
    if paths.None? || paths.value == [] then IterSources(m) else paths.value
  }

  // ---------------------------------------------------------------------------
  // One file of the source directory (the body of the loop in `_copy_files`)

  /** `n` dashes. */
  function Dashes(n: nat): (r: string)
    ensures |r| == n && forall k :: 0 <= k < n ==> r[k] == '-'
  {
    seq(n, _ => '-')
  }

  /** The first and last line of a banner. */
  function BannerRule(path: string): string {
    "//--" + Dashes(|path|) + "--//"
  }

  /** The three-line comment placed above every JavaScript source. */
  function Banner(path: string): (r: string)
    ensures |r| == 3 * (|path| + 9) && r[|r| - 1] == '\n'
  {
    BannerRule(path) + "\n" + "//  " + path + "  //" + "\n" + BannerRule(path) + "\n"
  }

  /** The rule is `//`, `|path| + 4` dashes and `//`. */
  lemma BannerRuleShape(path: string)
    ensures var r := BannerRule(path);
      && |r| == |path| + 8
      && r[..2] == "//" && r[|r| - 2..] == "//"
      && (forall k :: 2 <= k < |r| - 2 ==> r[k] == '-')
  {
    var r := BannerRule(path);
    assert r[..2] == "//";
    assert r[|r| - 2..] == "//";
  }

  /** Slicing three newline-terminated lines `x`, `y`, `x` of equal length. */
  lemma ThreeLines(x: string, y: string)
    requires |x| == |y|
    ensures var n := |x| + 1; var b := x + "\n" + y + "\n" + x + "\n";
      && |b| == 3 * n
      && b[..n] == x + "\n" && b[n..2 * n] == y + "\n" && b[2 * n..] == x + "\n"
  {
    var n := |x| + 1;
    var b := x + "\n" + y + "\n" + x + "\n";
    assert b == (x + "\n") + (y + "\n") + (x + "\n");
  }

  /** The banner is three lines of `|path| + 8` characters and a newline each:
      the rule, the path between `//  ` and `  //`, and the rule again. */
  lemma BannerShape(path: string)
    ensures var n := |path| + 9; var b := Banner(path);
      && |b| == 3 * n
      && b[..n] == b[2 * n..] == BannerRule(path) + "\n"
      && b[n..2 * n] == "//  " + path + "  //" + "\n"
  {
    var rule := BannerRule(path);
    var middle := "//  " + path + "  //";
    assert Banner(path) == rule + "\n" + middle + "\n" + rule + "\n";
    ThreeLines(rule, middle);
  }

  /** The file one source path turns into. `included` is what it adds to the
      include list: its module name for JavaScript, nothing otherwise. */
  datatype Entry = Entry(file: string, content: string, included: seq<string>)

  /** One turn of the loop in `_copy_files` for a path that is not synthetic.
      A JavaScript template is rendered, given a banner and written under its
      extension-less name with `.js`; any other template is loaded (read from
      its file, or taken inline) and written under its own path. Both end with
      two blank lines. Errors of the engine propagate. */
  function EntryFor(m: Configured, folder: string, path: string): (r: Result<Entry>)
    ensures m.tpl.mimetype(path) == JsMimetype ==>
      && (r.Ok? <==> m.tpl.render(path).Ok?)
      && (r.Err? ==> r.error == m.tpl.render(path).error)
    ensures m.tpl.mimetype(path) != JsMimetype ==>
      && (r.Ok? <==> m.tpl.load(path).Ok?)
      && (r.Err? ==> r.error == m.tpl.load(path).error)
    ensures r.Ok? && m.tpl.mimetype(path) == JsMimetype ==>
      && r.value.included == [Splitext(path).0]
      && r.value.file == JoinPath(folder, Splitext(path).0 + ".js")
      && r.value.content == Banner(path) + m.tpl.render(path).value + "\n\n\n"
    ensures r.Ok? && m.tpl.mimetype(path) != JsMimetype ==>
      r.value.included == [] && r.value.file == JoinPath(folder, path)
    ensures r.Ok? && m.tpl.mimetype(path) != JsMimetype ==>
      var loaded := m.tpl.load(path).value;
      r.value.content == (if loaded.isFile then m.disk(loaded.result) else loaded.result) + "\n\n\n"
  {
    if m.tpl.mimetype(path) == JsMimetype then
      match m.tpl.render(path)
      case Err(e) => Err(e)
      case Ok(content) =>
        var base := Splitext(path).0;
        var text := Banner(path) + content + "\n\n\n";
        Ok(Entry(JoinPath(folder, base + ".js"), text, [base]))
    else
      match m.tpl.load(path)
      case Err(e) => Err(e)
      case Ok(loaded) =>
        var content := if loaded.isFile then m.disk(loaded.result) else loaded.result;
        var text := content + "\n\n\n";
        Ok(Entry(JoinPath(folder, path), text, []))
  }

  /** Whether the path, when copied, writes the file `file`. */
  predicate Writes(m: Configured, folder: string, path: string, file: string) {
    !IsSynthetic(path) && EntryFor(m, folder, path).Ok? && EntryFor(m, folder, path).value.file == file
  }

  // ---------------------------------------------------------------------------
  // The whole copy (`_copy_files`)

  /** The files on disk and the include list (or the error) after copying. */
  datatype Copied = Copied(files: map<string, string>, result: Result<seq<string>>)

  /** Copying `paths` into `folder`, starting from the files `files` and the
      include list `includes`: synthetic paths are skipped, every other path
      writes its entry, and the first error stops the copy. */
  function CopyFrom(m: Configured, folder: string, files: map<string, string>, includes: seq<string>,
                    paths: seq<string>): (r: Copied)
    ensures files.Keys <= r.files.Keys
    decreases |paths|
  {
    if paths == [] then Copied(files, Ok(includes))
    else if IsSynthetic(paths[0]) then CopyFrom(m, folder, files, includes, paths[1..])
    else
      match EntryFor(m, folder, paths[0])
      case Err(e) => Copied(files, Err(e))
      case Ok(w) => CopyFrom(m, folder, files[w.file := w.content], includes + w.included, paths[1..])
  }

  /** One step of the copy for a path that is not synthetic: an error stops it
      with the files as they are, an entry is written and the copy goes on. */
  lemma CopyStep(m: Configured, folder: string, files: map<string, string>, includes: seq<string>,
                 paths: seq<string>)
    requires paths != [] && !IsSynthetic(paths[0])
    ensures var e := EntryFor(m, folder, paths[0]);
      && (e.Err? ==> CopyFrom(m, folder, files, includes, paths) == Copied(files, Err(e.error)))
      && (e.Ok? ==> CopyFrom(m, folder, files, includes, paths)
                    == CopyFrom(m, folder, files[e.value.file := e.value.content], includes + e.value.included, paths[1..]))
  {
  }

  /** `_copy_files(folder, paths)` on a disk holding `files`: the new files and
      the include list, or the error that stopped it. */
  method CopyFiles(m: Configured, folder: string, files: map<string, string>, paths: Option<seq<string>>)
    returns (written: map<string, string>, r: Result<seq<string>>)
    ensures Copied(written, r) == CopyFrom(m, folder, files, [], SourcePaths(m, paths))
  {
    var todo := if paths.None? || paths.value == [] then IterSources(m) else paths.value;
    var includePaths: seq<string> := [];
    written := files;
    var i := 0;
    while i < |todo|
      invariant 0 <= i <= |todo|
      invariant CopyFrom(m, folder, files, [], todo) == CopyFrom(m, folder, written, includePaths, todo[i..])
    {
      var path := todo[i];
      assert todo[i..][0] == path && todo[i..][1..] == todo[i + 1..];
      if path == RequireJs || path == RequireConfig {
        i := i + 1;
        continue;
      }
      CopyStep(m, folder, written, includePaths, todo[i..]);
      var header := "";
      var file := JoinPath(folder, path);
      var content: string;
      var added: seq<string> := [];
      if m.tpl.mimetype(path) == JsMimetype {
        header := Banner(path);
        var rendered := m.tpl.render(path);
        if rendered.Err? {
          assert EntryFor(m, folder, path) == Err(rendered.error);
          return written, Err(rendered.error);
        }
        content := rendered.value;
        var (base, ext) := Splitext(path);
        added := [base];
        file := JoinPath(folder, base + ".js");
      } else {
        var loaded := m.tpl.load(path);
        if loaded.Err? {
          assert EntryFor(m, folder, path) == Err(loaded.error);
          return written, Err(loaded.error);
        }
        if loaded.value.isFile {
          content := m.disk(loaded.value.result);
        } else {
          content := loaded.value.result;
        }
        assert header + content == content;  // no banner outside JavaScript
      }
      assert EntryFor(m, folder, path) == Ok(Entry(file, header + content + "\n\n\n", added));
      includePaths := includePaths + added;
      written := written[file := header + content + "\n\n\n"];
      i := i + 1;
    }
    r := Ok(includePaths);
  }

  // ---------------------------------------------------------------------------
  // What the copy promises

  /** The non-synthetic JavaScript paths among `paths`, in order, repeats kept. */
  function JsSources(m: Configured, paths: seq<string>): seq<string> {
    if paths == [] then []
    else
      (if !IsSynthetic(paths[0]) && m.tpl.mimetype(paths[0]) == JsMimetype then [paths[0]] else [])
      + JsSources(m, paths[1..])
  }

  /** The include list `paths` should give: the extension-less name of each
      non-synthetic JavaScript path, in order. */
  function IncludesOf(m: Configured, paths: seq<string>): seq<string> {
    if paths == [] then [] else IncludeOf(m, paths[0]) + IncludesOf(m, paths[1..])
  }

  /** What one path adds to the include list. */
  function IncludeOf(m: Configured, path: string): seq<string> {
    if !IsSynthetic(path) && m.tpl.mimetype(path) == JsMimetype then [Splitext(path).0] else []
  }

  /** The include list has one entry per non-synthetic JavaScript path, and
      entry `i` is path `i` of `JsSources` without its extension. */
  lemma {:induction false} IncludesOfAt(m: Configured, paths: seq<string>)
    ensures |IncludesOf(m, paths)| == |JsSources(m, paths)|
    ensures forall i :: 0 <= i < |JsSources(m, paths)| ==>
              IncludesOf(m, paths)[i] + Splitext(JsSources(m, paths)[i]).1 == JsSources(m, paths)[i]
  {
    if paths != [] {
      IncludesOfAt(m, paths[1..]);
    }
  }

  /** `JsSources` keeps each non-synthetic JavaScript path as often as it occurs. */
  lemma {:induction false} JsSourcesCount(m: Configured, paths: seq<string>, p: string)
    ensures multiset(JsSources(m, paths))[p]
      == if !IsSynthetic(p) && m.tpl.mimetype(p) == JsMimetype then multiset(paths)[p] else 0
  {
    if paths != [] {
      JsSourcesCount(m, paths[1..], p);
      assert paths == [paths[0]] + paths[1..];
    }
  }

  /** `JsSources` keeps the order of the paths. */
  lemma {:induction false} JsSourcesAppend(m: Configured, a: seq<string>, b: seq<string>)
    ensures JsSources(m, a + b) == JsSources(m, a) + JsSources(m, b)
  {
    if a != [] {
      JsSourcesAppend(m, a[1..], b);
      var head := if !IsSynthetic(a[0]) && m.tpl.mimetype(a[0]) == JsMimetype then [a[0]] else [];
      assert (a + b)[0] == a[0] && (a + b)[1..] == a[1..] + b;
      assert JsSources(m, a + b) == head + JsSources(m, a[1..] + b);
    } else {
      assert a + b == b;
    }
  }

  /** A successful copy returns the include list it started with followed by
      the extension-less names of the non-synthetic JavaScript paths, in
      input order, duplicates kept. */
  lemma {:induction false} CopyIncludes(m: Configured, folder: string, files: map<string, string>,
                                        includes: seq<string>, paths: seq<string>)
    requires CopyFrom(m, folder, files, includes, paths).result.Ok?
    ensures CopyFrom(m, folder, files, includes, paths).result.value == includes + IncludesOf(m, paths)
    decreases |paths|, 1
  {
    if paths == [] {
    } else if IsSynthetic(paths[0]) {
      CopyIncludes(m, folder, files, includes, paths[1..]);
      assert IncludesOf(m, paths) == IncludesOf(m, paths[1..]) by {
        assert IncludeOf(m, paths[0]) == [];
      }
    } else {
      CopyIncludesEntry(m, folder, files, includes, paths);
    }
  }

  /** Appending to an include list in two steps or in one gives the same list. */
  lemma ConcatAssociative(a: seq<string>, b: seq<string>, c: seq<string>)
    ensures a + b + c == a + (b + c)
  {
  }

  /** `CopyIncludes` for a list that starts with a path to copy. */
  lemma {:induction false} CopyIncludesEntry(m: Configured, folder: string, files: map<string, string>,
                                             includes: seq<string>, paths: seq<string>)
    requires paths != [] && !IsSynthetic(paths[0])
    requires CopyFrom(m, folder, files, includes, paths).result.Ok?
    ensures CopyFrom(m, folder, files, includes, paths).result.value == includes + IncludesOf(m, paths)
    decreases |paths|, 0
  {
    CopyStep(m, folder, files, includes, paths);
    var w := EntryFor(m, folder, paths[0]).value;
    CopyIncludes(m, folder, files[w.file := w.content], includes + w.included, paths[1..]);
    assert w.included == IncludeOf(m, paths[0]);
    assert IncludesOf(m, paths) == IncludeOf(m, paths[0]) + IncludesOf(m, paths[1..]);
    assert CopyFrom(m, folder, files, includes, paths).result.value == includes + w.included + IncludesOf(m, paths[1..]);
    ConcatAssociative(includes, w.included, IncludesOf(m, paths[1..]));
  }

  /** The synthetic paths are skipped wherever they occur: copying gives the
      same files and include list as copying the list without them. */
  lemma {:induction false} CopySkipsSynthetic(m: Configured, folder: string, files: map<string, string>,
                                              includes: seq<string>, paths: seq<string>)
    ensures CopyFrom(m, folder, files, includes, paths)
      == CopyFrom(m, folder, files, includes, WithoutSynthetic(paths))
    decreases |paths|
  {
    if paths != [] {
      var rest := WithoutSynthetic(paths[1..]);
      if IsSynthetic(paths[0]) {
        assert WithoutSynthetic(paths) == rest;
        CopySkipsSynthetic(m, folder, files, includes, paths[1..]);
      } else {
        var kept := WithoutSynthetic(paths);
        assert kept == [paths[0]] + rest;
        assert kept[0] == paths[0] && kept[1..] == rest;
        if EntryFor(m, folder, paths[0]).Ok? {
          var w := EntryFor(m, folder, paths[0]).value;
          CopySkipsSynthetic(m, folder, files[w.file := w.content], includes + w.included, paths[1..]);
        }
      }
    }
  }

  /** `paths` without `!require.js` and `!require-config.js`. */
  function WithoutSynthetic(paths: seq<string>): seq<string>
  {
    if paths == [] then []
    else (if IsSynthetic(paths[0]) then [] else [paths[0]]) + WithoutSynthetic(paths[1..])
  }

  /** Each path other than the synthetic ones is kept as often as it occurs. */
  lemma {:induction false} WithoutSyntheticCount(paths: seq<string>, p: string)
    ensures multiset(WithoutSynthetic(paths))[p] == if IsSynthetic(p) then 0 else multiset(paths)[p]
  {
    if paths != [] {
      WithoutSyntheticCount(paths[1..], p);
      assert paths == [paths[0]] + paths[1..];
    }
  }

  /** A path is kept exactly when it occurs and is not synthetic. */
  lemma WithoutSyntheticMembership(paths: seq<string>, p: string)
    ensures p in WithoutSynthetic(paths) <==> p in paths && !IsSynthetic(p)
  {
    WithoutSyntheticCount(paths, p);
    assert p in WithoutSynthetic(paths) <==> multiset(WithoutSynthetic(paths))[p] > 0;
    assert p in paths <==> multiset(paths)[p] > 0;
  }

  /** Removing the synthetic paths keeps the order of the others. */
  lemma {:induction false} WithoutSyntheticAppend(a: seq<string>, b: seq<string>)
    ensures WithoutSynthetic(a + b) == WithoutSynthetic(a) + WithoutSynthetic(b)
  {
    if a != [] {
      WithoutSyntheticAppend(a[1..], b);
      var head := if IsSynthetic(a[0]) then [] else [a[0]];
      assert (a + b)[0] == a[0] && (a + b)[1..] == a[1..] + b;
      assert WithoutSynthetic(a + b) == head + WithoutSynthetic(a[1..] + b);
    } else {
      assert a + b == b;
    }
  }

  /** The copy fails exactly when some non-synthetic path fails, and then with
      the error of the first such path. */
  lemma {:induction false} CopyFailure(m: Configured, folder: string, files: map<string, string>,
                                       includes: seq<string>, paths: seq<string>) returns (i: nat)
    requires CopyFrom(m, folder, files, includes, paths).result.Err?
    ensures i < |paths| && !IsSynthetic(paths[i])
    ensures EntryFor(m, folder, paths[i]) == Err(CopyFrom(m, folder, files, includes, paths).result.error)
    ensures forall j :: 0 <= j < i && !IsSynthetic(paths[j]) ==> EntryFor(m, folder, paths[j]).Ok?
    decreases |paths|
  {
    if IsSynthetic(paths[0]) {
      var k := CopyFailure(m, folder, files, includes, paths[1..]);
      i := k + 1;
      OkBefore(m, folder, paths, k);
    } else {
      CopyStep(m, folder, files, includes, paths);
      if EntryFor(m, folder, paths[0]).Err? {
        i := 0;
      } else {
        var w := EntryFor(m, folder, paths[0]).value;
        var k := CopyFailure(m, folder, files[w.file := w.content], includes + w.included, paths[1..]);
        i := k + 1;
        OkBefore(m, folder, paths, k);
      }
    }
  }

  /** Every path before position `k + 1` succeeds when the first one does and
      every one before position `k` of the rest does. */
  lemma OkBefore(m: Configured, folder: string, paths: seq<string>, k: nat)
    requires k < |paths| - 1
    requires !IsSynthetic(paths[0]) ==> EntryFor(m, folder, paths[0]).Ok?
    requires forall j :: 0 <= j < k && !IsSynthetic(paths[1..][j]) ==> EntryFor(m, folder, paths[1..][j]).Ok?
    ensures forall j :: 0 <= j < k + 1 && !IsSynthetic(paths[j]) ==> EntryFor(m, folder, paths[j]).Ok?
  {
    forall j | 0 < j < k + 1
      ensures paths[j] == paths[1..][j - 1]
    {
    }
  }

  /** When every non-synthetic path can be rendered or loaded, the copy succeeds. */
  lemma {:induction false} CopySuccess(m: Configured, folder: string, files: map<string, string>,
                                       includes: seq<string>, paths: seq<string>)
    requires forall j :: 0 <= j < |paths| && !IsSynthetic(paths[j]) ==> EntryFor(m, folder, paths[j]).Ok?
    ensures CopyFrom(m, folder, files, includes, paths).result.Ok?
    decreases |paths|
  {
    if paths != [] {
      if IsSynthetic(paths[0]) {
        CopySuccess(m, folder, files, includes, paths[1..]);
      } else {
        CopyStep(m, folder, files, includes, paths);
        var w := EntryFor(m, folder, paths[0]).value;
        CopySuccess(m, folder, files[w.file := w.content], includes + w.included, paths[1..]);
      }
    }
  }

  /** A file no copied path writes keeps its earlier content, even when the
      copy fails. */
  lemma {:induction false} CopyUntouched(m: Configured, folder: string, files: map<string, string>,
                                         includes: seq<string>, paths: seq<string>, file: string)
    requires forall j :: 0 <= j < |paths| ==> !Writes(m, folder, paths[j], file)
    ensures var c := CopyFrom(m, folder, files, includes, paths);
      && (file in c.files <==> file in files)
      && (file in files ==> c.files[file] == files[file])
    decreases |paths|
  {
    if paths != [] {
      assert !Writes(m, folder, paths[0], file);
      if IsSynthetic(paths[0]) {
        CopyUntouched(m, folder, files, includes, paths[1..], file);
      } else {
        CopyStep(m, folder, files, includes, paths);
        if EntryFor(m, folder, paths[0]).Ok? {
          var w := EntryFor(m, folder, paths[0]).value;
          CopyUntouched(m, folder, files[w.file := w.content], includes + w.included, paths[1..], file);
        }
      }
    }
  }

  /** After a successful copy, the file of a path that no later path
      overwrites holds that path's entry: the last write to a name wins. */
  lemma {:induction false} CopyLastWriteWins(m: Configured, folder: string, files: map<string, string>,
                                             includes: seq<string>, paths: seq<string>, i: nat)
    requires i < |paths| && !IsSynthetic(paths[i]) && EntryFor(m, folder, paths[i]).Ok?
    requires CopyFrom(m, folder, files, includes, paths).result.Ok?
    requires forall j :: i < j < |paths| ==> !Writes(m, folder, paths[j], EntryFor(m, folder, paths[i]).value.file)
    ensures var w := EntryFor(m, folder, paths[i]).value;
      var c := CopyFrom(m, folder, files, includes, paths);
      w.file in c.files && c.files[w.file] == w.content
    decreases |paths|, 1
  {
    var w := EntryFor(m, folder, paths[i]).value;
    NoWritesInRest(m, folder, paths, i, w.file);
    if i == 0 {
      CopyStep(m, folder, files, includes, paths);
      CopyUntouched(m, folder, files[w.file := w.content], includes + w.included, paths[1..], w.file);
    } else {
      CopyLaterWrite(m, folder, files, includes, paths, i);
    }
  }

  /** `CopyLastWriteWins` for a path after the first. */
  lemma {:induction false} CopyLaterWrite(m: Configured, folder: string, files: map<string, string>,
                                          includes: seq<string>, paths: seq<string>, i: nat)
    requires 0 < i < |paths| && !IsSynthetic(paths[i]) && EntryFor(m, folder, paths[i]).Ok?
    requires CopyFrom(m, folder, files, includes, paths).result.Ok?
    requires paths[1..][i - 1] == paths[i]
    requires forall j :: i - 1 < j < |paths| - 1 ==>
               !Writes(m, folder, paths[1..][j], EntryFor(m, folder, paths[i]).value.file)
    ensures var w := EntryFor(m, folder, paths[i]).value;
      var c := CopyFrom(m, folder, files, includes, paths);
      w.file in c.files && c.files[w.file] == w.content
    decreases |paths|, 0
  {
    if IsSynthetic(paths[0]) {
      CopyLastWriteWins(m, folder, files, includes, paths[1..], i - 1);
    } else {
      CopyStep(m, folder, files, includes, paths);
      var v := EntryFor(m, folder, paths[0]).value;
      CopyLastWriteWins(m, folder, files[v.file := v.content], includes + v.included, paths[1..], i - 1);
    }
  }

  /** The paths after position `i` are the paths of the rest after position `i - 1`. */
  lemma NoWritesInRest(m: Configured, folder: string, paths: seq<string>, i: nat, file: string)
    requires i < |paths|
    requires forall j :: i < j < |paths| ==> !Writes(m, folder, paths[j], file)
    ensures i > 0 ==> paths[1..][i - 1] == paths[i]
    ensures forall j :: i - 1 < j < |paths| - 1 ==> !Writes(m, folder, paths[1..][j], file)
  {
    forall j | i - 1 < j < |paths| - 1
      ensures paths[1..][j] == paths[j + 1]
    {
    }
  }

  /** One JavaScript template `app.js` rendering to `var x=1;`, no passthrough
      extensions, default paths: the include list is `["app"]` and the source
      directory gets `app.js` with its banner, the text and two blank lines. */
  lemma AppScenario(m: Configured, folder: string)
    requires m.tpl.jsPaths == ["app.js"] && m.passthroughExtensions == []
    requires m.tpl.mimetype("app.js") == JsMimetype && m.tpl.render("app.js") == Ok("var x=1;")
    ensures var c := CopyFrom(m, folder, map[], [], SourcePaths(m, None));
      && c.result == Ok(["app"])
      && c.files == map[JoinPath(folder, "app.js") := Banner("app.js") + "var x=1;\n\n\n"]
  {
    assert Splitext("app.js") == ("app", ".js") by {
      RFindAt("app.js", '.', 3);
      RFindAt("app.js", '/', -1);
      assert "app.js"[0] != '.';
      assert "app.js"[..3] == "app" && "app.js"[3..] == ".js";
    }
    assert SourcePaths(m, None) == ["app.js"];
    assert "app" + ".js" == "app.js";
    assert Banner("app.js") + "var x=1;" + "\n\n\n" == Banner("app.js") + "var x=1;\n\n\n";
    var w := Entry(JoinPath(folder, "app.js"), Banner("app.js") + "var x=1;\n\n\n", ["app"]);
    assert EntryFor(m, folder, "app.js") == Ok(w);
    var single: seq<string> := ["app.js"];
    assert single[0] == "app.js" && single[1..] == [];
    assert [] + ["app"] == ["app"];
    assert CopyFrom(m, folder, map[], [], single) == CopyFrom(m, folder, map[w.file := w.content], [] + ["app"], []);
  }

  // ---------------------------------------------------------------------------
  // The bundle (`create_bundle`)

  /** The source directory handed to the optimizer: `require.js` holding the
      rendered bootstrap, then the copied sources. */
  function SourceTree(m: Configured, srcdir: string, bootstrap: string, paths: Option<seq<string>>): Copied {
    CopyFrom(m, srcdir, map[JoinPath(srcdir, "require.js") := bootstrap], [], SourcePaths(m, paths))
  }

  /** The node.js run: the configured executable and configuration file, with
      the output sent to stdout, the include list, the source directory as
      base URL and no minification. */
  function OptimizerCall(m: Configured, srcdir: string, includes: seq<string>, files: map<string, string>): Invocation {
    Invocation(m.nodejsPath, m.configFile, Overrides("stdout", includes, srcdir, "none"), files)
  }

  /** `create_bundle(paths)`, with the temporary source directory `srcdir` and
      the node.js process `node`: the bootstrap, the optimizer's output and the
      configuration call, in this order; any failure of a step ends the bundle,
      and a non-zero exit status of node.js raises with its output. */
  method CreateBundle(m: Configured, srcdir: string, node: Node, paths: Option<seq<string>>)
    returns (r: Result<string>)
    ensures m.tpl.render(RequireJs).Err? ==> r == Err(m.tpl.render(RequireJs).error)
    ensures m.tpl.render(RequireJs).Ok? ==>
      var bootstrap := m.tpl.render(RequireJs).value;
      var tree := SourceTree(m, srcdir, bootstrap, paths);
      && (tree.result.Err? ==> r == Err(tree.result.error))
      && (tree.result.Ok? ==>
            var done := node(OptimizerCall(m, srcdir, tree.result.value, tree.files));
            && (done.returncode != 0 ==>
                  r == Err(ProcessFailure(done.returncode, "node.js", done.stdout, done.stderr)))
            && (done.returncode == 0 ==>
                  && (r.Ok? <==> m.tpl.render(RequireConfig).Ok?)
                  && (r.Err? ==> r.error == m.tpl.render(RequireConfig).error)
                  && (r.Ok? ==> r.value == bootstrap + done.stdout + m.tpl.render(RequireConfig).value)))
  {
    var rendered := m.tpl.render(RequireJs);
    if rendered.Err? {
      return Err(rendered.error);
    }
    var bootstrap := rendered.value;
    var files := map[JoinPath(srcdir, "require.js") := bootstrap];
    var written, includes := CopyFiles(m, srcdir, files, paths);
    if includes.Err? {
      return Err(includes.error);
    }
    var done := node(OptimizerCall(m, srcdir, includes.value, written));
    if done.returncode != 0 {
      return Err(ProcessFailure(done.returncode, "node.js", done.stdout, done.stderr));
    }
    var config := m.tpl.render(RequireConfig);
    if config.Err? {
      return Err(config.error);
    }
    r := Ok(bootstrap + done.stdout + config.value);
  }
}
