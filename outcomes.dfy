/** The optional value shared by the modules of this model: `None` stands for
    a value the source leaves `undefined`, or for a call that throws. */
module Outcomes {

  datatype Option<T> = None | Some(value: T)
}
