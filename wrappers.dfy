/** The optional value used wherever the library's type checker can reject an
    expression: `None` stands for "this type does not resolve". */
module Wrappers {

  datatype Option<+T> = None | Some(value: T)
}
