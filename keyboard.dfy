/**
 * The typo generator: a fixed table of keys next to each letter on a QWERTY keyboard
 * (`getNearbyKeys`) and the choice of a wrong character from it (`getRandomWrongChar`).
 */
module Keyboard {
  import opened Chars
  import opened Randomness

  /** The adjacency table, keyed by lower-case letter */
  const TABLE: map<char, string> := map[
    'q' := "wa", 'w' := "qes", 'e' := "wrd",
    'r' := "etf", 't' := "ryg", 'y' := "tuh",
    'u' := "yij", 'i' := "uok", 'o' := "ipl",
    'p' := "ol", 'a' := "qsz", 's' := "awdx",
    'd' := "sefc", 'f' := "drgv",
    'g' := "fthb", 'h' := "gyjn",
    'j' := "hukm", 'k' := "jil", 'l' := "ko",
    'z' := "ax", 'x' := "zsc", 'c' := "xdv",
    'v' := "cfb", 'b' := "vgn", 'n' := "bhm",
    'm' := "nj"
  ]

  /** `getNearbyKeys(c)`: the table entry of the lower-cased character, or `[c]` when there is none. */
  function NearbyKeys(c: char): (keys: string)
    ensures |keys| > 0
    ensures ToLower(c) !in TABLE ==> keys == [c]
  {
    var l := ToLower(c);
    if l in TABLE then TABLE[l] else [c]
  }

  /** `String.fromCharCode(97 + Math.floor(r * 26))`, a random lower-case letter */
  function FallbackLetter(r: real): (c: char)
    ensures IsLower(c)
    ensures IsDraw(r) ==> c as int == 97 + (r * 26.0).Floor
  {
    var k := (r * 26.0).Floor % 26;
    (97 + k) as char
  }

  /**
   * `getRandomWrongChar(c)`: the neighbour at position `floor(pick * n)` in the
   * table entry, or a random letter when that position holds nothing.
   */
  function RandomWrongChar(c: char, pick: real, fallback: real): (w: char)
    ensures IsDraw(pick) ==> w in NearbyKeys(c)
    ensures w in NearbyKeys(c) || IsLower(w)
  {
    var nearby := NearbyKeys(c);
    var i := (pick * |nearby| as real).Floor;
    if 0 <= i < |nearby| then nearby[i] else FallbackLetter(fallback)
  }

  /** The table has an entry for exactly the 26 lower-case letters. */
  lemma TableCoversAlphabet()
    ensures forall c :: c in TABLE <==> IsLower(c)
  {
    forall c | IsLower(c) ensures c in TABLE {
      LowerEnumerated(c);
    }
  }

  /** Every lower-case letter is one of the 26 listed. */
  lemma LowerEnumerated(c: char)
    requires IsLower(c)
    ensures c in "abcdefghijklmnopqrstuvwxyz"
  {
    var s := "abcdefghijklmnopqrstuvwxyz";
    assert forall k :: 0 <= k < 26 ==> s[k] as int == 97 + k;
    assert s[c as int - 97] == c;
  }

  /** Every entry is a non-empty list of lower-case letters, none of them the key itself. */
  lemma TableEntries()
    ensures forall k :: k in TABLE ==> |TABLE[k]| > 0
    ensures forall k, j :: k in TABLE && 0 <= j < |TABLE[k]| ==> IsLower(TABLE[k][j]) && TABLE[k][j] != k
  {
  }

  /** A draw times a positive length, floored, is a valid position. */
  lemma FloorIndex(pick: real, n: nat)
    requires IsDraw(pick) && n > 0
    ensures 0 <= (pick * n as real).Floor < n
  {
    assert pick * n as real < n as real;
  }

  /**
   * For a letter the chosen typo is a lower-case neighbour from the table and differs
   * from the intended character (in either case).
   */
  lemma WrongCharIsNeighbour(c: char, pick: real, fallback: real)
    requires IsLetter(c) && IsDraw(pick)
    ensures var w := RandomWrongChar(c, pick, fallback);
            w in TABLE[ToLower(c)] && IsLower(w) && w != c && w != ToLower(c)
  {
    TableCoversAlphabet();
    TableEntries();
    var nearby := NearbyKeys(c);
    assert nearby == TABLE[ToLower(c)];
    FloorIndex(pick, |nearby|);
  }

  /**
   * For any other character the "wrong" character is the character itself, except
   * for the Kelvin sign, which lower-cases to `k` and so gets the neighbours of `k`.
   * (The engine asks for a typo only at `A`-`Z` and `a`-`z`.)
   */
  lemma NonLetterIsRetyped(c: char, pick: real, fallback: real)
    requires !IsLetter(c) && IsDraw(pick)
    ensures c != KELVIN_SIGN ==> RandomWrongChar(c, pick, fallback) == c
    ensures c == KELVIN_SIGN ==> RandomWrongChar(c, pick, fallback) in "jil"
  {
    TableCoversAlphabet();
    if c == KELVIN_SIGN {
      assert NearbyKeys(c) == "jil";
      FloorIndex(pick, 3);
    } else {
      FloorIndex(pick, 1);
    }
  }
}
