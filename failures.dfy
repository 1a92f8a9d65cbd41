/** The ways a run of the tool ends early. cli.js reports each of them with
    a banner on standard error and exits with status 1; here an abort is the
    error side of a `Result`. */
module Failures {
  import opened Text

  datatype Abort =
    | StatusFailed(message: String)   // a git status error other than "not a git repository"
    | DirtyTree(files: seq<String>)   // git reports modified or renamed files
    | NothingToRename                 // the plan holds only the script header

  datatype Result<T> = Ok(value: T) | Err(error: Abort)

  datatype Option<T> = None | Some(value: T)
}
