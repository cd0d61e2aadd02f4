/** The optional value used for absent capabilities, missing map keys and failed reads. */
module Options {
  datatype Option<+T> = None | Some(value: T)
}
