/** The optional value used wherever the front end returns a nullable result
    (`char?` from the line and character indexers, a missing end cursor). */
module Wrappers {

  datatype Option<+T> = None | Some(value: T)

}
