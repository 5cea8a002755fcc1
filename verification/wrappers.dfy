/** The Option type shared by the modules of the camera driver model. */
module Wrappers {

  datatype Option<+T> = None | Some(value: T)
}
