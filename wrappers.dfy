/** The optional value used wherever the source returns `None`, finds no
    file, or gets no answer from a collaborator. */
module Wrappers {

  datatype Option<+T> = None | Some(value: T)
}
