/** An optional value: `None` plays the part of JavaScript's `undefined`, `null` or `NaN`
    wherever the source tests for a missing value. */
module Optional {

  datatype Option<+T> = None | Some(value: T)
}
