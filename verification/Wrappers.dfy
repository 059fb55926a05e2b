/** Option values shared by the decoders and parsers. */
module Wrappers {
  datatype Option<+T> = None | Some(value: T)
}
