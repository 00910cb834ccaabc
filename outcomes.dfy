/** Optional values and the Python exceptions that end a standings update. */
module Outcomes {

  datatype Option<+T> = None | Some(value: T)

  /** The exceptions the standings arithmetic of `do_update` can raise. */
  datatype Exception =
    | ZeroDivisionError  // season pace divides by a team's games played
    | KeyError           // last-ten pace reads a team's `l10pts` before any was set
    | IndexError         // a division with fewer than four entries has no `[-4]`

  /** A value, or the exception that replaced it. */
  datatype Result<+T> = Ok(value: T) | Err(error: Exception)
}
