/** An optional value, shared by the page-interaction modules. */
module Wrappers {

  /** A value that may be absent (a DOM lookup that found nothing, an empty timer slot). */
  datatype Option<+T> = None | Some(value: T)
}
