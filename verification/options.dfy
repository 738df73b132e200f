/** A value that may be absent. In this model `None` stands for JavaScript's `null`. */
module Options {

  datatype Option<+T> = None | Some(value: T)
}
