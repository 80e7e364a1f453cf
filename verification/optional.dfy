/** The optional-value type shared by the calculator modules: an optional history
    count, and the outcome of the numeric evaluator (a result text, or nothing
    when the expression is rejected). */
module Optional {

  datatype Option<+T> = None | Some(value: T)
}
