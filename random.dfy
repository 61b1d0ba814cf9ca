/** Random draws: every `Math.random()` call of the source is a parameter of the model. */
module Randomness {

  /** A value `Math.random()` can return */
  predicate IsDraw(r: real) {
    0.0 <= r < 1.0
  }
}
