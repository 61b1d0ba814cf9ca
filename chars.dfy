/**
 * Character classes used by the typing engine. Each predicate is the model of a
 * regular-expression test applied to a one-character string.
 */
module Chars {

  /** `/[a-zA-Z]/.test(c)` */
  predicate IsLetter(c: char) {
    'a' <= c <= 'z' || 'A' <= c <= 'Z'
  }

  predicate IsLower(c: char) {
    'a' <= c <= 'z'
  }

  /** `/[0-9]/.test(c)` */
  predicate IsDigit(c: char) {
    '0' <= c <= '9'
  }

  /** `/[.,!?;:()]/.test(c)` */
  predicate IsPunctuation(c: char) {
    c in ".,!?;:()"
  }

  /** `/[.!?]/.test(c)`: sentence-ending punctuation */
  predicate IsSentenceEnd(c: char) {
    c in ".!?"
  }

  /** U+212A KELVIN SIGN, the one character outside `A`-`Z` that JavaScript lower-cases to an ASCII letter */
  const KELVIN_SIGN: char := '\U{212A}'

  /**
   * `toLowerCase` on one character, as far as it can make a difference to the
   * engine: `A`-`Z` and the Kelvin sign become lower-case ASCII letters, and every
   * other character is kept (see the README for the characters this leaves alone).
   */
  function ToLower(c: char): (l: char)
    ensures IsLower(l) <==> IsLetter(c) || c == KELVIN_SIGN
    ensures 'A' <= c <= 'Z' ==> l as int == c as int + 32
    ensures c == KELVIN_SIGN ==> l == 'k'
    ensures !('A' <= c <= 'Z') && c != KELVIN_SIGN ==> l == c
  {
    if 'A' <= c <= 'Z' then (c as int + 32) as char
    else if c == KELVIN_SIGN then 'k'
    else c
  }

  /** `toLowerCase` on a string, character by character */
  function LowerString(s: string): (r: string)
    ensures |r| == |s|
    ensures forall i :: 0 <= i < |s| ==> r[i] == ToLower(s[i])
  {
    seq(|s|, i requires 0 <= i < |s| => ToLower(s[i]))
  }
}
