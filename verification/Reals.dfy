/** Arithmetic on reals that several modules share. */
module Reals {
  function Min(a: real, b: real): real { if b < a then b else a }
  function Max(a: real, b: real): real { if a < b then b else a }

  /** A product that proofs can name without multiplying it out. */
  function Times(x: real, y: real): real { x * y }

  lemma ProductSign(a: real, b: real)
    requires a >= 0.0 && b >= 0.0
    ensures a * b >= 0.0
  {}
}
