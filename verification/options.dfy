/** The "value or nothing" result that both parsers return; `None` plays the
    role of Python's `None` sentinel. */
module Options {

  datatype Option<+T> = None | Some(value: T)
}
