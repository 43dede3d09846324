# score.requirejs, modelled in Dafny

`score.requirejs` lets the SCORE template engine (`score.tpl`) serve a
require.js setup. It adds two synthetic templates: `!require.js`, the loader's
bootstrap script, and `!require-config.js`, a `require.config(...)` call built
from the configured file. It also builds one JavaScript bundle. To do that it
copies every JavaScript template into a temporary source directory, together
with every template carrying a configured passthrough extension. It then has
node.js run the r.js optimizer over that directory and concatenates the
bootstrap, the optimizer's output and the configuration call. The asset
framework (`score.webassets`) reaches all of this through the `RequirejsAssets`
proxy.

The model is in seven modules:

- `Outcomes`: the exceptions that reach callers (`TemplateNotFound`, `AssetNotFound`, `CalledProcessError`) and a `Result` type.
- `Text`: the Python library calls whose exact behaviour matters:
  - `str.strip` and `str.isspace`;
  - `str.endswith` and `str.join`;
  - `os.path.join` and `os.path.splitext`, POSIX flavour.
- `Order`: Python's ordering of strings (code-point lexicographic order) and `sorted()`.
- `Templates`: the collaborators, as values whose behaviour is left open:
  - the template engine (`iter_paths`, `mimetype`, `render`, `load`, `hash`);
  - the disk (`open(name).read()`);
  - a node.js run, a function from what the generated script is given to `(stdout, stderr, returncode)`.
- `Loader`: `RequireJsLoader`.
- `Requirejs`: `ConfiguredRequirejsModule`, covering `_iter_paths`, `_copy_files` and `create_bundle`.
- `Assets`: `RequirejsAssets`.

`_copy_files` and `bundle_hash` update local state in a loop. They are methods
with loop invariants (`CopyFiles`, `BundleHash`). Each is proved equal to a
specification function (`CopyFrom`, `BundleHashInput`). What the source
promises is then proved about those functions as lemmas.

Files on disk are a `map` from full file name to content. Everything else is
pure, so it is written as functions.

`ConfiguredRequirejsModule` never reassigns its fields after construction, so
it is the datatype `Configured`.

Where the module's documented design and its code differ, the model follows the code:

- The configuration text is stripped of whitespace at both ends (`conf.strip()`, score/requirejs/_init.py:191), not only at the end.
- `_copy_files` renders JavaScript with the same `tpl.render(path)` call as the proxy's `render` (lines 162 and 218). It does not bypass postprocessors itself.
- `create_bundle` returns the plain concatenation (lines 135-136). It applies no postprocessor chain of its own.
- A passthrough extension matches when the path ends with `.` followed by the extension, literally and case-sensitively. Python's `$` also lets the match stand before one final newline (lines 141-145). An extension containing a dot, such as `tar.gz`, therefore matches too. The rule is not "the suffix after the final dot is in the list".

## Model

| member | source | states |
|---|---|---|
| `Text.StripIsSlice` | score/requirejs/_init.py:191 | `conf.strip()` is the slice between a whitespace-only prefix and a whitespace-only suffix, and it starts and ends with non-whitespace |
| `Text.Strip` | score/requirejs/_init.py:191 | `conf.strip()` is no longer than the configuration and neither starts nor ends with whitespace |
| `Text.StripIdempotent` | score/requirejs/_init.py:191 | stripping the configuration twice gives the same text as stripping it once |
| `Text.Splitext` | score/requirejs/_init.py:163 | `base + ext == path`; `ext` is empty or a dot followed by neither a dot nor a slash; `ext` is non-empty exactly when the last path component has a dot preceded by some character other than a dot |
| `Text.SplitextExamples` | score/requirejs/_init.py:163 | `js/app.min.js` gives base `js/app.min` and extension `.js`; a dot in a directory name (`lib.d/readme`) starts no extension |
| `Text.SplitextLeadingDots` | score/requirejs/_init.py:163 | leading dots of the file name (`.eslintrc`, `..js`) start no extension |
| `Text.JoinPath` | score/requirejs/_init.py:155 | `os.path.join` ends with the joined name and is that name alone when it is absolute; for a relative name it starts with the folder and adds one character exactly when the folder is non-empty and does not already end with `/` |
| `Text.JoinPathSeparator` | score/requirejs/_init.py:155 | that one added character is `/`: the result is the folder, `/`, then the name |
| `Text.JoinPathInjective` | score/requirejs/_init.py:155 | two different relative names give two different files in one folder |
| `Order.Sort` | score/requirejs/_init.py:238 | `sorted(paths)` is in order and is a permutation of `paths` |
| `Order.SortedUnique` | score/requirejs/_init.py:238 | two sorted lists with the same elements (counted with multiplicity) are equal |
| `Order.SortIgnoresOrder` | score/requirejs/_init.py:238 | `sorted` gives the same list for any reordering of its input |
| `Order.LessEq` | score/requirejs/_init.py:238 | Python string order: `a <= b` exactly when `a` is a prefix of `b` or, at the first position where they differ, `a` has the smaller character |
| `Order.DiffersLowerTail` | score/requirejs/_init.py:238 | two strings with the same first character are ordered by what follows it |
| `Order.LessEqReflexive` | score/requirejs/_init.py:238 | every string is `<=` itself |
| `Order.LessEqTotal` | score/requirejs/_init.py:238 | any two strings are comparable |
| `Order.LessEqAntisymmetric` | score/requirejs/_init.py:238 | two strings each `<=` the other are equal |
| `Order.LessEqTransitive` | score/requirejs/_init.py:238 | the string order is transitive |
| `Loader.RequireJsLoader.IterPaths` | score/requirejs/_init.py:182-183 | yields exactly the two synthetic paths, `!require.js` first |
| `Loader.RequireJsLoader.Load` | score/requirejs/_init.py:185-192 | succeeds exactly on the two synthetic paths; `!require.js` is the file `require.js` next to the package; `!require-config.js` is inline text; any other path raises `TemplateNotFound(path)` |
| `Loader.RequireJsLoader.IsValid` | score/requirejs/_init.py:194-195 | true exactly for the synthetic paths, which are exactly the paths `load` accepts |
| `Loader.RequireJsLoader.ConfigCallShape` | score/requirejs/_init.py:189-191 | the inline configuration is `require.config(` + the stripped configuration file + `);` and a newline, and the stripped text can be read back from it |
| `Loader.ConfigCallExample` | score/requirejs/_init.py:189-191 | a configuration file `{x:1}` with a trailing newline gives `require.config({x:1});` and a newline |
| `Requirejs.HasExtension` | score/requirejs/_init.py:141-145 | the compiled pattern matches exactly when some dot in the path is followed by the extension, or by the extension and one final newline |
| `Requirejs.HasAnyExtension` | score/requirejs/_init.py:141-145 | with no extensions nothing matches; a matching path contains a dot |
| `Requirejs.IterSources` | score/requirejs/_init.py:138-145 | a path is yielded exactly when it is a JavaScript template or, with passthrough extensions configured, a template carrying one of them |
| `Requirejs.PassthroughCount` | score/requirejs/_init.py:144-145 | the extension filter keeps every matching path once per occurrence and drops every other path |
| `Requirejs.PassthroughAppend` | score/requirejs/_init.py:144-145 | the extension filter keeps the template order (it distributes over concatenation) |
| `Requirejs.PassthroughMembership` | score/requirejs/_init.py:144-145 | a path is yielded exactly when it is a template path carrying one of the extensions |
| `Requirejs.IterSourcesShape` | score/requirejs/_init.py:138-145 | the JavaScript paths come first, unchanged; each path's count is its JavaScript count plus, when it matches an extension, its template count (no deduplication); without extensions only the JavaScript paths are listed |
| `Requirejs.ExtensionExamples` | score/requirejs/_init.py:141-145 | a listed extension after a dot matches, also before one trailing newline; an empty extension list matches nothing |
| `Requirejs.ExtensionCaseSensitive` | score/requirejs/_init.py:141-145 | `row.HTML` does not match `html`: the match is case-sensitive |
| `Requirejs.ExtensionNeedsDot` | score/requirejs/_init.py:141-145 | `rowhtml` does not match `html`: the dot is required |
| `Requirejs.SourcePaths` | score/requirejs/_init.py:148-149 | a missing or empty `paths` means `list(_iter_paths())`; otherwise the given list is used as it is |
| `Requirejs.BannerRuleShape` | score/requirejs/_init.py:157-161 | the banner's rule is `//`, `len(path) + 4` dashes and `//`, `len(path) + 8` characters in all |
| `Requirejs.Banner` | score/requirejs/_init.py:157-161 | the header has length `3 * (len(path) + 9)` and ends with a newline |
| `Requirejs.BannerShape` | score/requirejs/_init.py:157-161 | the header is three newline-terminated lines of equal length: the rule, the path framed by `//  ` and `  //`, then the rule again |
| `Requirejs.EntryFor` | score/requirejs/_init.py:154-173 | a JavaScript path writes `folder/<base>.js` with exactly banner + rendered text + `'\n\n\n'` and adds `base` to the include list; any other path writes `folder/path` with exactly the loaded text (or the file it names, read from disk) + `'\n\n\n'` and adds nothing; render and load errors pass through unchanged |
| `Requirejs.CopyFiles` | score/requirejs/_init.py:147-174 | the loop leaves the disk and the include list (or the error) exactly as `CopyFrom` describes |
| `Requirejs.CopyFrom` | score/requirejs/_init.py:151-173 | copying never removes a file that was already there |
| `Requirejs.IncludesOfAt` | score/requirejs/_init.py:156-164 | the expected include list has one entry per non-synthetic JavaScript path, and entry `i` is that path without its extension |
| `Requirejs.JsSourcesCount` | score/requirejs/_init.py:151-156 | every non-synthetic JavaScript path counts once per occurrence, duplicates kept |
| `Requirejs.JsSourcesAppend` | score/requirejs/_init.py:151-156 | the JavaScript paths keep their input order |
| `Requirejs.CopyIncludes` | score/requirejs/_init.py:150-174 | a successful copy returns the splitext bases of the non-synthetic JavaScript paths, in input order, duplicates kept |
| `Requirejs.CopySkipsSynthetic` | score/requirejs/_init.py:151-153 | `!require.js` and `!require-config.js` anywhere in the input change neither the files nor the include list |
| `Requirejs.WithoutSyntheticCount` | score/requirejs/_init.py:151-153 | removing the synthetic paths keeps every other path exactly as often as it occurs and drops `!require.js` and `!require-config.js` |
| `Requirejs.WithoutSyntheticMembership` | score/requirejs/_init.py:151-153 | a path survives exactly when it occurs and is not synthetic |
| `Requirejs.WithoutSyntheticAppend` | score/requirejs/_init.py:151-153 | removing the synthetic paths keeps the order of the others (it distributes over concatenation) |
| `Requirejs.CopyFailure` | score/requirejs/_init.py:162-167 | a failed copy fails with the error of the first non-synthetic path whose render or load fails |
| `Requirejs.CopySuccess` | score/requirejs/_init.py:162-167 | when every non-synthetic path renders or loads, the copy succeeds |
| `Requirejs.CopyUntouched` | score/requirejs/_init.py:172-173 | a file that no copied path writes keeps its earlier content, and a file that was absent stays absent, even when the copy fails |
| `Requirejs.CopyLastWriteWins` | score/requirejs/_init.py:172-173 | after a successful copy, a path's file holds that path's entry unless a later path writes the same file |
| `Requirejs.CopyLaterWrite` | score/requirejs/_init.py:172-173 | the same, for a path after the first |
| `Requirejs.AppScenario` | score/requirejs/_init.py:147-174 | the single JavaScript template `app.js` rendering `var x=1;` gives include list `["app"]` and the one file `folder/app.js` holding banner + text + two blank lines |
| `Requirejs.CreateBundle` | score/requirejs/_init.py:86-136 | bootstrap, then copy, then node.js with overrides `out: stdout`, the include list, `baseUrl` = source directory and `optimize: none`; a non-zero exit raises `CalledProcessError(returncode, 'node.js', stdout, stderr)` and returns no text; exit 0 gives bootstrap + stdout + rendered configuration, whatever stderr holds; any earlier error aborts |
| `Assets.DefaultPaths` | score/requirejs/_init.py:203-206 | the two synthetic paths first, `!require.js` leading, then, with `tpl_autobundle`, exactly the source paths of `_iter_paths` in their order, otherwise nothing |
| `Assets.ValidatePath` | score/requirejs/_init.py:208-210 | true exactly for a synthetic path, a JavaScript template, or (with passthrough extensions) a template carrying one of them |
| `Assets.DefaultPathsAreValid` | score/requirejs/_init.py:203-210 | every default path is valid; with `tpl_autobundle` the valid paths are exactly the default ones |
| `Assets.Hash` | score/requirejs/_init.py:212-213 | a single asset never has a hash (`None`) |
| `Assets.Render` | score/requirejs/_init.py:215-225 | JavaScript is rendered and anything else is loaded and read; `TemplateNotFound` becomes `AssetNotFound('requirejs', path)` and never escapes; any other error passes through unchanged |
| `Assets.RenderUrl` | score/requirejs/_init.py:230-231 | `<script src="` + url + `"></script>`, with the URL readable from the middle |
| `Assets.RenderUrlInjective` | score/requirejs/_init.py:230-231 | different URLs give different elements |
| `Assets.HashesOf` | score/requirejs/_init.py:237-239 | one engine hash per path, in the given order |
| `Assets.BundleHash` | score/requirejs/_init.py:236-240 | the loop digests the engine hashes of the paths in sorted order, joined by NUL |
| `Assets.BundleHashIgnoresOrder` | score/requirejs/_init.py:236-240 | any permutation of the paths gives the same hashed text and so the same bundle hash |
| `Assets.BundleMimetype` | score/requirejs/_init.py:242-243 | always `application/javascript` |

## Left out

- Running node.js: the pipes, `communicate` and the UTF-8 decoding of its output (score/requirejs/_init.py:116-121). A run is an arbitrary function from what the generated script receives to `(stdout, stderr, returncode)`.
- The generated script's text and its `json.dumps` interpolation (lines 94-115). The model keeps only the values the script carries: the configuration file and the four overrides. The script merges the overrides into the configuration inside node.js, so that merge is outside this code and is not modelled.
- `tempfile.TemporaryDirectory` and its removal, `os.makedirs`, and directories in general (lines 88-90, 172). The temporary source directory is a parameter, and the files are a map. Clashes between a file and a directory of the same name are not modelled.
- Errors raised by `open(...).read()` (lines 169, 221, 190). The disk is a total function, so a read never fails.
- File names are compared as strings. `a/./b.js`, `a//b.js` and `a/b.js` name one file on disk (lines 155, 165, 173), but they are three keys of the files map. So "the same file" in `Requirejs.CopyLastWriteWins`, `Requirejs.CopyLaterWrite` and `Requirejs.CopyUntouched` means the same name string, not the same file after path normalisation.
- Errors raised by `open(file, 'w').write(...)` (lines 91, 173). A write into the source directory always succeeds in the model, so a copy or bundle never fails while writing.
- Errors raised by the engine's `mimetype` (lines 156, 217). The engine's `mimetype` is a total function. An exception from it at line 217 would meet the `try` that turns `TemplateNotFound` into `AssetNotFound`; the model never raises there.
- SHA-256 and UTF-8 encoding in `bundle_hash` (line 240). They are an uninterpreted function of the joined text, so "different content gives a different hash" cannot be stated.
- The template engine's own behaviour, including postprocessors, and the registration of the loader in `tpl.loaders['js']` (line 81). `RequirejsAssets.mimetype` and `RequirejsAssets.create_bundle` (lines 227-228, 233-234) only forward. They are covered by the engine's `mimetype` and by `Requirejs.CreateBundle`.
- `init`: reading the configuration dictionary, `parse_list`, and the check that `cachedir` exists (lines 47-66). These are start-up and filesystem probing.
- Logging (lines 123, 133-134).
- The fallback for Python versions without the `stderr` argument of `CalledProcessError` (lines 124-132). The model raises with both stdout and stderr.
