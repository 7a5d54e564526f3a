/** Shared failure-carrying types and the errors that can end a sync run. */
module SyncTypes {

  datatype Option<+T> = None | Some(value: T)

  datatype Result<+T, +E> = Ok(value: T) | Err(error: E)

  /** The outcome of a step that yields no value: it passes, or it fails with an error. */
  datatype Outcome<+E> = Pass | Fail(error: E)

  /** The errors a run can end with; each one rejects the whole run. */
  datatype Error =
    | IoError(path: string)               // lstat, opendir or the md5 read failed on this local path
    | ListError(marker: Option<string>)   // getBucket failed for the request with this marker
    | PutError(key: string)               // putObject failed for this remote key
    | DeleteError(key: string)            // deleteObject failed for this remote key
    | NotAFunction(callee: string)        // a TypeError: the callee is not a function

  /** A file index: relative path to fingerprint (md5 locally, ETag remotely). */
  type FileIndex = map<string, string>
}
