/** An optional value, for what the tools read as absent, null or failed. */
module Wrappers {
  datatype Option<+T> = None | Some(value: T)
}

module Wasm {
  /** The node tools are built for wasm32, where `as usize` keeps the low 32 bits of an argument
      and `+ 1` in a release build wraps. */
  const USIZE := 0x1_0000_0000
}
