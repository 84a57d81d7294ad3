/** enum lf12_error; IoError and AllocationError cannot occur in this model. */
module Errors {
  datatype Error =
    | Success
    | NotADir
    | DirFull
    | LogicError
    | ImageFull
    | FileNotFound
    | EmptyPath
    | DirNotEmpty
}
