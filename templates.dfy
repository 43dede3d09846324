/** The collaborators the module talks to without owning them: the template
    engine of `score.tpl`, the files on disk and the node.js process. They are
    given as values whose behaviour the model leaves open. */
module Templates {
  import opened Outcomes

  /** The mimetype of JavaScript templates, and of every bundle. */
  const JsMimetype := "application/javascript"

  /** What a template loader answers for a path: `(True, file name)` when the
      content lives in a file, `(False, content)` when it is given inline. */
  datatype Loaded = Loaded(isFile: bool, result: string)

  /** The template engine (`tpl`), reduced to the calls the module makes. */
  datatype Engine = Engine(
    /** `tpl.iter_paths('application/javascript')`, in the engine's order */
    jsPaths: seq<string>,
    /** `tpl.iter_paths()`: every template path, in the engine's order */
    allPaths: seq<string>,
    /** `tpl.mimetype(path)` */
    mimetype: string -> string,
    /** `tpl.render(path)`; it may raise `TemplateNotFound` */
    render: string -> Result<string>,
    /** `tpl.load(path)`; it may raise `TemplateNotFound` */
    load: string -> Result<Loaded>,
    /** `tpl.hash(path)` */
    hash: string -> string)

  /** `open(name).read()`: the text of a file on disk. */
  type Disk = string -> string

  /** The overrides the generated script merges into the optimizer's
      configuration before it runs `requirejs.optimize`. */
  datatype Overrides = Overrides(out: string, includePaths: seq<string>, baseUrl: string, optimize: string)

  /** One run of node.js: the executable, the configuration file the script
      reads, the overrides it applies and the files present on disk. */
  datatype Invocation = Invocation(
    executable: string, configFile: string, overrides: Overrides, files: map<string, string>)

  /** What `Popen.communicate` and `returncode` give back after the run. */
  datatype Completed = Completed(stdout: string, stderr: string, returncode: int)

  /** The node.js process: what a run with the given script inputs produces. */
  type Node = Invocation -> Completed
}
