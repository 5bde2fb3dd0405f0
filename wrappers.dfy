/** Optional values, results and the command's early exits, shared by the model of the Docs console command. */
module Wrappers {

  /** A value that may be missing: an unset command option, a route without a controller instance. */
  datatype Option<+T> = None | Some(value: T)

  /** The outcome of a getter that may end the command with `exit`. */
  datatype Result<+R, +E> = Success(value: R) | Failure(error: E)

  /** Why the command stopped early; each variant is one of the `comment` + `exit` paths. */
  datatype Exit =
    | NameNotSupplied      // getDocName: neither --name nor a configured name
    | TypeDoesNotExist     // getType: --type is not one of the five codes
    | VersionNotSupplied   // getVersion: neither --use-version nor a configured version
}
