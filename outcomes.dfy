/** The exceptions the module raises or lets through, and the value-or-exception
    shape every fallible operation of the model returns. */
module Outcomes {

  /** An optional value: Python's `None` or a value. */
  datatype Option<T> = None | Some(value: T)

  /** The three exceptions that reach callers of the module. */
  datatype Error =
    /** `score.tpl.TemplateNotFound(path)`: the template engine knows no such path. */
    | TemplateNotFound(path: string)
    /** `score.webassets.AssetNotFound(owner, path)`: the asset proxy's own vocabulary. */
    | AssetNotFound(owner: string, path: string)
    /** `subprocess.CalledProcessError(returncode, cmd, output=…, stderr=…)`. */
    | ProcessFailure(returncode: int, cmd: string, output: string, stderr: string)

  /** A value, or the exception that aborted the computation. */
  datatype Result<T> = Ok(value: T) | Err(error: Error)
}
