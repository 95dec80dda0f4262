/** Option and Result, and the ways a hook of the plugin can reject. */
module Wrappers {

  datatype Option<+T> = None | Some(value: T)

  /** Why a hook rejects: each case is an exception thrown, or a promise
      rejected, somewhere inside the plugin's hooks. */
  datatype Error =
    | DirectoryUnreadable(dir: string)    // the recursive listing of a tree rejected
    | ReadFailure(path: string)           // reading one file rejected
    | MissingArtifact(fileName: string)   // a bundle entry is undefined when its source is read
    | NotJson(fileName: string)           // JSON.parse threw on the entry's text
    | MalformedManifest                   // a manifest value without string `src` and `file`
    | MissingName                         // `packageJSON.name` is not a string

  datatype Result<+T> = Success(value: T) | Failure(error: Error)
}
