/** Option and Result values used for the many operations that report a
    failure by returning None or a dict with 'success': False, and the set
    fact shared by the loops that work through a snapshot of keys. */
module Wrappers {

  datatype Option<+T> = None | Some(value: T) {
    function GetOr(default: T): T {
      match this
      case Some(v) => v
      case None => default
    }
  }

  /** A success value or an error message, as the source's result dicts carry. */
  datatype Result<+R> = Ok(value: R) | Err(error: string)

  /** Moving one element from the part still to visit to the visited part
      keeps the two a partition of the snapshot. */
  lemma ShiftOne<T>(pending: set<T>, done: set<T>, all: set<T>, x: T)
    requires pending + done == all && pending !! done && x in pending
    ensures (pending - {x}) + (done + {x}) == all && (pending - {x}) !! (done + {x})
  {
  }
}
