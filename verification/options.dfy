/** The optional-value type used for conversions that can fail, such as
    reading an integer out of a piece of text. */
module Options {

  datatype Option<+T> = None | Some(value: T)
}
