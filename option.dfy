/** The optional value used wherever the source yields `null`, `undefined` or "no match". */
module Opt {
  datatype Option<+T> = None | Some(value: T)
}
