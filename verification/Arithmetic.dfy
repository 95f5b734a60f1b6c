/** The saturating subtraction of Rust's unsigned integers. */
module Arithmetic {
  function SaturatingSub(a: nat, b: nat): nat { if a >= b then a - b else 0 }
}
