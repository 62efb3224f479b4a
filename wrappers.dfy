/** The Option datatype, standing for Python's `None`-or-value results
    (`dict.get` without a default, the early return of a search loop). */
module Wrappers {

  datatype Option<+T> = None | Some(value: T)

}
