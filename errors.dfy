/** Result wrappers, the error conditions raised by the WebHDFS client, and the error codes the
    handlers return to the kernel. */
module Errors {

  datatype Option<+T> = None | Some(value: T)

  datatype Result<+T> = Ok(value: T) | Err(error: ErrorKind)

  /** A condition raised by a remote call. The named sentinels are those of
      fs/controler/hadoop_resp.go and of the newer hadoop_error package (both revisions are
      modelled, so their sentinels are merged); the rest stand for the values Go carries in
      an `error` that no handler compares against. */
  datatype ErrorKind =
    | NoFound
    | Exist
    | Access
    | Eof
    | Again
    | Notsup
    | Range
    | NoAttr
      /** A decoded HadoopException (RemoteException.exception) of a non-200 reply. */
    | Remote(exception: string)
      /** A failure of the HTTP exchange itself. */
    | Transport
      /** A body that does not decode as the expected JSON. */
    | Undecodable
      /** A Go runtime panic (an index out of range, or the dereference of a nil account) caught by a handler's recover. */
    | RuntimePanic

  /** Error codes returned to the kernel (SUCCESS is 0). */
  datatype Errno = SUCCESS | ENOENT | EEXIST | EACCES | EAGAIN | ENOTSUP | ERANGE | ENOATTR | ENOSYS
}
