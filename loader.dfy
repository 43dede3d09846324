/** `RequireJsLoader`: the template loader that serves the two synthetic paths,
    the require.js bootstrap and the rendered configuration call. */
module Loader {
  import opened Outcomes
  import opened Text
  import opened Templates

  /** The synthetic path of the require.js bootstrap script. */
  const RequireJs := "!require.js"
  /** The synthetic path of the `require.config(...)` call. */
  const RequireConfig := "!require-config.js"

  /** One of the two paths no file backs. */
  predicate IsSynthetic(path: string) {
    path == RequireJs || path == RequireConfig
  }

  /** The opening and closing text around the configuration. */
  const ConfigOpen := "require.config("
  const ConfigClose := ");\n"

  /** The loader, bound to the configured `config_file`, to the directory this
      package is installed in (which holds `require.js`) and to the disk. */
  datatype RequireJsLoader = RequireJsLoader(configFile: string, packageDir: string, disk: Disk) {

    /** `iter_paths()`: the two synthetic paths, bootstrap first. */
    function IterPaths(): (r: seq<string>)
      ensures |r| == 2 && r[0] == RequireJs && r[1] == RequireConfig
      ensures forall p :: p in r <==> IsSynthetic(p)
    {
      [RequireJs, RequireConfig]
    }

    /** `load(path)`: the bootstrap is a reference to the bundled file, the
        configuration is inline text wrapping the stripped configuration file;
        every other path is not found. */
    function Load(path: string): (r: Result<Loaded>)
      ensures r.Ok? <==> IsSynthetic(path)
      ensures r.Err? ==> r.error == TemplateNotFound(path)
      ensures r.Ok? ==> (r.value.isFile <==> path == RequireJs)
      ensures path == RequireJs ==> r.value.result == JoinPath(packageDir, "require.js")
    {
      if path == RequireJs then
        Ok(Loaded(true, JoinPath(packageDir, "require.js")))
      else if path == RequireConfig then
        Ok(Loaded(false, ConfigOpen + Strip(disk(configFile)) + ConfigClose))
      else
        Err(TemplateNotFound(path))
    }

    /** `is_valid(path)`: exactly the paths this loader can load. */
    predicate IsValid(path: string)
      ensures IsValid(path) <==> IsSynthetic(path)
      ensures IsValid(path) <==> Load(path).Ok?
    {
      path in IterPaths()
    }

    /** The inline configuration is `require.config(` + the configuration file
        with surrounding whitespace removed + `);` and a newline, so the
        configuration text can be read back from it. */
    lemma ConfigCallShape()
      ensures var text := Load(RequireConfig).value.result;
        && |text| >= |ConfigOpen| + |ConfigClose|
        && text[..|ConfigOpen|] == ConfigOpen
        && text[|text| - |ConfigClose|..] == ConfigClose
        && text[|ConfigOpen|..|text| - |ConfigClose|] == Strip(disk(configFile))
        && Strip(text[|ConfigOpen|..|text| - |ConfigClose|]) == Strip(disk(configFile))
    {
      var c := Strip(disk(configFile));
      var text := ConfigOpen + c + ConfigClose;
      assert Load(RequireConfig) == Ok(Loaded(false, text));
      assert text[..|ConfigOpen|] == ConfigOpen;
      assert text[|text| - |ConfigClose|..] == ConfigClose;
      assert text[|ConfigOpen|..|text| - |ConfigClose|] == c;
      StripIdempotent(disk(configFile));
    }
  }

  /** A configuration file holding `{x:1}` with a trailing newline yields the
      call `require.config({x:1});` and a newline. */
  lemma ConfigCallExample(packageDir: string, disk: Disk)
    requires disk("conf/require.js") == "{x:1}\n"
    ensures RequireJsLoader("conf/require.js", packageDir, disk).Load(RequireConfig)
      == Ok(Loaded(false, "require.config({x:1});\n"))
  {
    var raw: string := "{x:1}\n";
    assert Strip(raw) == "{x:1}" by {
      assert IsSpace(raw[5]) && raw[..5] == "{x:1}";
      assert TrimEnd(raw) == TrimEnd("{x:1}");
      assert !IsSpace('}') && !IsSpace('{');
    }
    assert ConfigOpen + "{x:1}" + ConfigClose == "require.config({x:1});\n";
  }
}
