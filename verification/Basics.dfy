/** What several modules share. */
module Basics {
  datatype Option<+T> = None | Some(value: T)

  /** A byte as its bits, where the original shifts and masks. */
  type Byte = bv8

  /** A byte as its value, where the original counts. */
  type Octet = n: nat | n < 0x100

  function Min(a: nat, b: nat): nat { if a < b then a else b }
}
