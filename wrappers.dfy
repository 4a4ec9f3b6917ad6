/** Failure-carrying values shared by every module of the model. */
module Wrappers {

  datatype Option<+T> = None | Some(value: T)

  /** The Python exceptions that the modelled code raises or catches. */
  datatype Error =
    | PermissionError
    | FileNotFoundError
    | FileExistsError
    | NotADirectoryError
    | ArchiveError       // shutil.make_archive could not write the archive (disk full, ...)

  /** How a step ended: normally, or by raising an exception. */
  datatype Outcome = Pass | Raised(error: Error)
}
