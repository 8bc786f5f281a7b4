/** The optional value used wherever the modelled Java code returns `null`
    or throws: `None` stands for the missing value or the exception. */
module Wrappers {

  datatype Option<+T> = None | Some(value: T)

}
