/** `RequirejsAssets`: how the module presents itself to the asset framework
    (`score.webassets`): its default and valid paths, single-asset rendering,
    the HTML that references an asset, and the hash and mimetype of bundles. */
module Assets {
  import opened Outcomes
  import opened Text
  import opened Order
  import opened Templates
  import opened Loader
  import opened Requirejs

  /** The name the proxy reports in `AssetNotFound`. */
  const ModuleName := "requirejs"

  /** `iter_default_paths()`: the two synthetic paths, then, when the asset
      framework bundles templates automatically, every source path. */
  function DefaultPaths(m: Configured): (r: seq<string>)
    ensures |r| >= 2 && r[..2] == [RequireJs, RequireConfig]
    ensures r[2..] == if m.autobundle then IterSources(m) else []
    ensures forall p :: p in r <==> IsSynthetic(p) || (m.autobundle && p in IterSources(m))
  {
    [RequireJs, RequireConfig] + (if m.autobundle then IterSources(m) else [])
  }

  /** `validate_path(path)`: a synthetic path, a JavaScript template, or (with
      passthrough extensions configured) a template carrying one of them. */
  predicate ValidatePath(m: Configured, path: string)
    ensures ValidatePath(m, path) <==>
      || IsSynthetic(path)
      || path in m.tpl.jsPaths
      || (m.passthroughExtensions != [] && path in m.tpl.allPaths
          && HasAnyExtension(path, m.passthroughExtensions))
  {
    PassthroughMembership(m.tpl.allPaths, m.passthroughExtensions, path);
    path in [RequireJs, RequireConfig] || path in IterSources(m)
  }

  /** Every default path is a valid path, and with automatic bundling the
      valid paths are exactly the default ones. */
  lemma DefaultPathsAreValid(m: Configured, path: string)
    ensures path in DefaultPaths(m) ==> ValidatePath(m, path)
    ensures m.autobundle ==> (ValidatePath(m, path) <==> path in DefaultPaths(m))
  {
    PassthroughMembership(m.tpl.allPaths, m.passthroughExtensions, path);
  }

  /** `hash(path)`: single assets never have a stable hash. */
  function Hash(path: string): (r: Option<string>)
    ensures r.None?
  {
    None
  }

  /** `render(path)`: a JavaScript template rendered by the engine, any other
      template loaded (read from its file, or taken inline); a template the
      engine does not know becomes `AssetNotFound('requirejs', path)`. */
  function Render(m: Configured, path: string): (r: Result<string>)
    ensures r.Err? ==> !r.error.TemplateNotFound?
    ensures m.tpl.mimetype(path) == JsMimetype ==>
      && (r.Ok? <==> m.tpl.render(path).Ok?)
      && (r.Ok? ==> r.value == m.tpl.render(path).value)
      && (m.tpl.render(path).Err? && m.tpl.render(path).error.TemplateNotFound? ==>
            r == Err(AssetNotFound(ModuleName, path)))
      && (m.tpl.render(path).Err? && !m.tpl.render(path).error.TemplateNotFound? ==>
            r == m.tpl.render(path))
    ensures m.tpl.mimetype(path) != JsMimetype ==>
      && (r.Ok? <==> m.tpl.load(path).Ok?)
      && (r.Ok? ==> r.value == if m.tpl.load(path).value.isFile then m.disk(m.tpl.load(path).value.result)
                               else m.tpl.load(path).value.result)
      && (m.tpl.load(path).Err? && m.tpl.load(path).error.TemplateNotFound? ==>
            r == Err(AssetNotFound(ModuleName, path)))
      && (m.tpl.load(path).Err? && !m.tpl.load(path).error.TemplateNotFound? ==>
            r == Err(m.tpl.load(path).error))
  {
    var attempt :=
      if m.tpl.mimetype(path) == JsMimetype then m.tpl.render(path)
      else match m.tpl.load(path)
           case Err(e) => Err(e)
           case Ok(loaded) => Ok(if loaded.isFile then m.disk(loaded.result) else loaded.result);
    if attempt.Err? && attempt.error.TemplateNotFound? then Err(AssetNotFound(ModuleName, path))
    else attempt
  }

  /** The text around the URL in `render_url`. */
  const ScriptOpen := "<script src=\""
  const ScriptClose := "\"></script>"

  /** `render_url(url)`: a `<script>` element loading `url`; the URL can be
      read back from between the fixed opening and closing text. */
  function RenderUrl(url: string): (r: string)
    ensures |r| == |ScriptOpen| + |url| + |ScriptClose|
    ensures r[..|ScriptOpen|] == ScriptOpen
    ensures r[|ScriptOpen|..|ScriptOpen| + |url|] == url
    ensures r[|ScriptOpen| + |url|..] == ScriptClose
  {
    var r := ScriptOpen + url + ScriptClose;
    assert r[|ScriptOpen|..|ScriptOpen| + |url|] == url;
    r
  }

  /** The element of `RenderUrl` determines the URL. */
  lemma RenderUrlInjective(a: string, b: string)
    requires RenderUrl(a) == RenderUrl(b)
    ensures a == b
  {
    var n := |ScriptOpen|;
    assert a == RenderUrl(a)[n..n + |a|];
  }

  /** The engine's hash of each path, in order. */
  function HashesOf(m: Configured, paths: seq<string>): (r: seq<string>)
    ensures |r| == |paths|
    ensures forall i :: 0 <= i < |paths| ==> r[i] == m.tpl.hash(paths[i])
  {
    seq(|paths|, i requires 0 <= i < |paths| => m.tpl.hash(paths[i]))
  }

  /** The text the bundle hash digests: the engine's hashes of the paths in
      sorted path order, joined by NUL characters. */
  function BundleHashInput(m: Configured, paths: seq<string>): string {
    Join(HashesOf(m, Sort(paths)), "\0")
  }

  /** `bundle_hash(paths)`, with `sha256` standing for the hex digest of the
      UTF-8 encoding. */
  method BundleHash(m: Configured, sha256: string -> string, paths: seq<string>) returns (r: string)
    ensures r == sha256(BundleHashInput(m, paths))
  {
    var sorted := Sort(paths);
    var hashes: seq<string> := [];
    var i := 0;
    while i < |sorted|
      invariant 0 <= i <= |sorted|
      invariant |hashes| == i
      invariant forall k :: 0 <= k < i ==> hashes[k] == m.tpl.hash(sorted[k])
    {
      hashes := hashes + [m.tpl.hash(sorted[i])];
      i := i + 1;
    }
    assert hashes == HashesOf(m, sorted);
    r := sha256(Join(hashes, "\0"));
  }

  /** The bundle hash depends only on which paths are bundled, counted with
      multiplicity, and not on the order they are given in. */
  lemma BundleHashIgnoresOrder(m: Configured, sha256: string -> string, a: seq<string>, b: seq<string>)
    requires multiset(a) == multiset(b)
    ensures BundleHashInput(m, a) == BundleHashInput(m, b)
    ensures sha256(BundleHashInput(m, a)) == sha256(BundleHashInput(m, b))
  {
    SortIgnoresOrder(a, b);
  }

  /** `bundle_mimetype(paths)`: every bundle is JavaScript. */
  function BundleMimetype(paths: seq<string>): (r: string)
    ensures r == "application/javascript"
  {
    JsMimetype
  }
}
