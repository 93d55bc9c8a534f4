/** The optional value used for cells that may be missing (NaN / NaT / None). */
module Wrappers {
  datatype Option<+T> = None | Some(value: T)
}
