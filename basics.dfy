/** Small shared vocabulary: optional values and calendar days. */
module Basics {

  /** A value that may be absent (JavaScript `null`, or a dialog the user cancelled). */
  datatype Option<T> = None | Some(value: T)

  /** A calendar day, counted in whole days; the day before `d` is `d - 1`. */
  type Day = int
}
