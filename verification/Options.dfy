/** The optional value every module shares: what the program writes as `T | null` or `T | undefined`. */
module Options {
  datatype Option<+T> = None | Some(value: T)
}
