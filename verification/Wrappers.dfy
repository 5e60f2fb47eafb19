module Wrappers {
  datatype Option<+T> = None | Some(value: T) {
    function GetOr(default: T): T { if Some? then value else default }
  }

  /** `Panics` stands for a Go panic: the call has no result. */
  datatype Outcome<+T> = Done(value: T) | Panics
}
