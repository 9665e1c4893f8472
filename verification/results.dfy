/** Failure-carrying results for the operations that raise in the modelled program. */
module Results {

  /** The exceptions the modelled code can raise; only the kind and a short message are kept. */
  datatype Error = ValueError(message: string)

  /** Either a value or the exception that interrupted the computation. */
  datatype Result<T> = Ok(value: T) | Err(error: Error)

  /** An optional value: a table cell that may be missing (NaN in the tabular output). */
  datatype Option<T> = None | Some(value: T)
}
