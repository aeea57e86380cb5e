/** The absent-or-present result used where the catalog must tell an unknown
    book apart from a known book whose genre is still unassigned. */
module Wrappers {

  datatype Option<+T> = None | Some(value: T)

}
