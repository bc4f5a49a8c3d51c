/** Optional values, results and the errors the upload core can see. */
module Errors {
  datatype Option<T> = None | Some(value: T)

  datatype Result<T> = Success(value: T) | Failure(error: Error)

  type Path = seq<string>

  /**
   * The first eight kinds are what the operating system and io package report;
   * the last two are the errors the transfer handler and the client make up.
   */
  datatype Error =
    | NotExist(path: Path)          // ENOENT: no such file or directory
    | IsADirectory(path: Path)      // EISDIR
    | NotADirectory(path: Path)     // ENOTDIR: a path component is a regular file
    | FileClosed                    // os.ErrClosed: the handle was already closed
    | BadDescriptor                 // EBADF: a write through a read-only handle
    | NegativeOffset                // ReadAt/WriteAt with an offset below zero
    | Invalid                       // os.ErrInvalid: a method called on a nil *os.File
    | EOF                           // io.EOF: a read that came up short
    | MustOpenFirst                 // the handler's "you must call open first"
    | UploadOfDirectory(path: Path) // the client's "<name> is directory"
}
