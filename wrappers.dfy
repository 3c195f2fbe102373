/** The optional-value datatype used for the schema tag chosen by file name
    and for the catalog side of a left-joined row. */
module Wrappers {

  datatype Option<+T> = None | Some(value: T)

}
