/** Arithmetic on counts and offsets, as the program's unsigned numbers have it. */

module Naturals {
  function Smaller(a: nat, b: nat): nat {
    if a < b then a else b
  }

  function Larger(a: nat, b: nat): nat {
    if a < b then b else a
  }

  /** Subtraction that stops at zero. */
  function Less(a: nat, b: nat): nat {
    if a < b then 0 else a - b
  }
}
