/** Failure-carrying results shared by every package of the model. */
module Common {

  datatype Option<+T> = None | Some(value: T)

  /** The error values the Go packages return, plus the run-time panics
      that the Go code can raise (a panic is not an `error` in Go, but the
      model makes it an explicit outcome instead of leaving it implicit). */
  datatype Error =
    | InvalidTkk                 // tk.ErrInvalidTkk
    | TkkNotFound                // tkk.ErrNotFound
    | TkkStatus(code: int)       // tkk: "couldn't found tkk ..., status code: %d"
    | RequestStatus(code: int)   // googletrans: "request status: ..."
    | InvalidServiceURL          // transcookie.ErrInvalidServiceURL
    | Transport                  // an error from the HTTP client or from reading a body
    | BadExpires                 // time.Parse rejected a cookie's expires attribute
    | RuntimePanic(what: string) // a Go run-time panic (slice bounds, index out of range)

  datatype Result<+T> = Ok(value: T) | Err(error: Error)
}
