/** The optional value used for a fetch that may return no data and for a
    step that may or may not emit a summary or an alert. */
module Wrappers {

  datatype Option<+T> = None | Some(value: T)
}
