/** Failure-carrying values shared by the models: `Option` for Rust's `Option`
    (and for lookups that may find nothing), `Result` for Rust's `Result`. */
module Wrappers {

  datatype Option<+T> = None | Some(value: T)

  datatype Result<+T, +E> = Ok(value: T) | Err(error: E)
}

/** Fixed-width integers of the source, as subset types of `int`. */
module Ints {

  const BYTE_MODULUS: int := 0x100
  const U32_MODULUS: int := 0x1_0000_0000
  const U64_MODULUS: int := 0x1_0000_0000_0000_0000

  type byte = x: int | 0 <= x < BYTE_MODULUS
  type u32 = x: int | 0 <= x < U32_MODULUS
  type u64 = x: int | 0 <= x < U64_MODULUS
  type i32 = x: int | -0x8000_0000 <= x < 0x8000_0000
  type i64 = x: int | -0x8000_0000_0000_0000 <= x < 0x8000_0000_0000_0000

  /** Result of comparing two values, as Rust's `std::cmp::Ordering`. */
  datatype Ordering = Less | Equal | Greater

  /** `a.cmp(&b)` on integers. */
  function Cmp(a: int, b: int): Ordering
  {
    if a < b then Less else if a == b then Equal else Greater
  }
}
