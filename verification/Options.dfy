/** The optional value used throughout the model: `Option` in Rust, `null`/`undefined` in TypeScript. */
module Options {
  datatype Option<+T> = None | Some(value: T)
}
